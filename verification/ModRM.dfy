/** Memory operands in 32-bit mode: parseModRM, getSib and calcMemoryAddress32 of the emulator. */
module ModRM {
  import opened LittleEndian

  datatype ModRM = ModRM(mod: nat, reg: nat, rm: nat, disp32: uint32, sib: byte)

  function Add(a: uint32, b: int): uint32 { (a + b) % U32 }

  function Sub(a: uint32, b: uint32): uint32 { (a - b) % U32 }

  lemma {:induction false} AddAdd(a: uint32, i: int, j: int)
    ensures Add(Add(a, i), j) == Add(a, i + j) && Add(a, 0) == a
    ensures Add(a, i % U32) == Add(a, i)
  {
    var q := (a + i) / U32;
    assert a + i == q * U32 + Add(a, i);
    assert (a + i) + j == q * U32 + (Add(a, i) + j);
  }

  // ---- Signed bytes, as Go converts them -------------------------------------------------------------

  /** A byte read as int8. */
  function Sign8(b: byte): int { if b >= 0x80 then b - 0x100 else b }

  /** Negation of an int8, which leaves -128 alone. */
  function Neg8(x: int): int { if x == -0x80 then x else -x }

  /** An int8 converted to uint32. */
  function Extend8(x: int): uint32
    requires -0x80 <= x < 0x80
  {
    if x < 0 then x + U32 else x
  }

  // ---- The addressing forms of Intel SDM Vol. 2A, section 2.1.5 --------------------------------------------

  /** Byte k of the instruction at eip. */
  function Code(code: uint32 -> byte, eip: uint32, k: nat): byte { code(Add(eip, k)) }

  function Code32(code: uint32 -> byte, eip: uint32, k: nat): uint32 {
    FromBytes(Code(code, eip, k), Code(code, eip, k + 1), Code(code, eip, k + 2), Code(code, eip, k + 3))
  }

  /** The operand that follows: its ModRM byte, its SIB byte if it has one, and where its displacement starts. */
  datatype Form = Form(mod: nat, rm: nat, sib: byte, at: nat) {
    predicate HasSib() { mod != 3 && rm == 4 }
    function Base(): nat { sib % 8 }
    function Index(): nat { sib / 8 % 8 }
    function Scale(): nat { sib / 64 }
    /** Size of the displacement in bytes. */
    function DispSize(): nat {
      if mod == 1 then 1 else if mod == 2 || (mod == 0 && (rm == 5 || (rm == 4 && Base() == 5))) then 4 else 0
    }
    function Length(): nat { at + DispSize() }
  }

  function FormAt(code: uint32 -> byte, eip: uint32): Form {
    var b := Code(code, eip, 0);
    if b / 64 != 3 && b % 8 == 4 then Form(b / 64, b % 8, Code(code, eip, 1), 2) else Form(b / 64, b % 8, 0, 1)
  }

  /** The effective address: base plus scaled index plus sign-extended displacement, modulo 2^32. */
  function EffectiveAddress(regs: seq<uint32>, code: uint32 -> byte, eip: uint32): (r: int)
    requires |regs| == 8
  {
    var f := FormAt(code, eip);
    var base := if f.HasSib() then if f.Base() == 5 && f.mod == 0 then 0 else regs[f.Base()]
                else if f.mod == 0 && f.rm == 5 then 0 else regs[f.rm];
    var index := if f.HasSib() && f.Index() != 4 then regs[f.Index()] * Power2(f.Scale()) else 0;
    var disp := if f.DispSize() == 1 then Sign8(Code(code, eip, f.at))
                else if f.DispSize() == 4 then Code32(code, eip, f.at) else 0;
    (base + index + disp) % U32
  }

  // ---- The emulator ------------------------------------------------------------------------------------------

  /** ModRM.getSib. */
  function GetSib(regs: seq<uint32>, m: ModRM): uint32
    requires |regs| == 8
  {
    if m.mod < 3 && m.rm == 4 then
      var base, index, scale := m.sib % 8, m.sib / 8 % 8, m.sib / 64;
      var result := if base == 5 && m.mod == 0 then m.disp32 else regs[base];
      if index != 4 then Add(result, regs[index] * Power2(scale) % U32) else result
    else 0
  }

  /** calcMemoryAddress32 on a memory operand. */
  function CalcMemoryAddress32(regs: seq<uint32>, m: ModRM): uint32
    requires |regs| == 8 && m.mod < 3 && m.rm < 8
  {
    var start := if m.rm == 4 then GetSib(regs, m) else regs[m.rm];
    if m.mod == 0 then
      if m.rm == 5 then m.disp32 else start
    else if m.mod == 1 then
      var disp8 := Sign8(m.disp32 % 0x100);
      if disp8 < 0 then Sub(start, Extend8(Neg8(disp8))) else Add(start, Extend8(disp8))
    else Add(start, m.disp32)
  }

  class Emulator {
    const code: uint32 -> byte
    var eip: uint32

    constructor (code: uint32 -> byte, eip: uint32)
      ensures this.code == code && this.eip == eip
    {
      this.code, this.eip := code, eip;
    }

    /** parseModRM in 32-bit mode. */
    method ParseModRM() returns (m: ModRM)
      modifies this
      ensures Parsed(m, code, old(eip)) && eip == Add(old(eip), FormAt(code, old(eip)).Length())
    {
      hide Add, Code32;
      ghost var e0 := eip;
      AddAdd(e0, 1, 1);
      CodeShift(code, e0, 1);
      CodeShift(code, e0, 2);
      AddAdd(e0, 1, 4);
      AddAdd(e0, 2, 4);
      AddAdd(e0, 2, 1);
      var b := code(eip);
      m := ModRM(b / 64, b / 8 % 8, b % 8, 0, 0);
      eip := Add(eip, 1);
      if m.mod != 3 && m.rm == 4 {
        m := m.(sib := code(eip));
        eip := Add(eip, 1);
      }
      if (m.mod == 0 && m.rm == 5) || m.mod == 2 || (m.mod == 0 && m.rm == 4 && m.sib % 8 == 5) {
        m := m.(disp32 := Code32(code, eip, 0));
        eip := Add(eip, 4);
      } else if m.mod == 1 {
        m := m.(disp32 := Extend8(Sign8(code(eip))));
        eip := Add(eip, 1);
      }
    }
  }

  /** m holds the fields of the operand at eip. */
  ghost predicate Parsed(m: ModRM, code: uint32 -> byte, eip: uint32) {
    var f := FormAt(code, eip);
    && m.mod == f.mod && m.rm == f.rm && m.sib == f.sib && m.reg == Code(code, eip, 0) / 8 % 8
    && m.disp32 == if f.DispSize() == 4 then Code32(code, eip, f.at)
                   else if f.DispSize() == 1 then Extend8(Sign8(Code(code, eip, f.at))) else 0
  }

  /** A displacement of -128 is added instead of subtracted. */
  predicate BadDisp(code: uint32 -> byte, eip: uint32) {
    FormAt(code, eip).mod == 1 && Code(code, eip, FormAt(code, eip).at) == 0x80
  }

  lemma {:induction false} CodeShift(code: uint32 -> byte, eip: uint32, at: nat)
    ensures Code32(code, Add(eip, at), 0) == Code32(code, eip, at)
  {
    hide Add;
    AddAdd(eip, at, 0);
    AddAdd(eip, at, 1);
    AddAdd(eip, at, 2);
    AddAdd(eip, at, 3);
  }

  /** What calcMemoryAddress32 adds for an 8-bit displacement. */
  lemma {:induction false} Disp8(start: uint32, b: byte)
    ensures var d := Sign8(Extend8(Sign8(b)) % 0x100);
            && d == Sign8(b)
            && (if d < 0 then Sub(start, Extend8(Neg8(d))) else Add(start, Extend8(d)))
                == Add(start, if b == 0x80 then 0x80 else d)
  {
    var x := Sign8(b);
    assert Extend8(x) % 0x100 == b by {
      assert U32 % 0x100 == 0;
    }
    if x < 0 {
      assert Neg8(x) == -x || x == -0x80;
    }
    if b == 0x80 {
      assert start - (U32 - 0x80) == (start + 0x80) - U32;
    }
  }

  lemma {:induction false} Apart(start: uint32)
    ensures Add(start, 0x80) != Add(start, -0x80) && Add(start, 0x80) == Add(Add(start, -0x80), 0x100)
  {
  }

  /** The part of the address before the displacement, and the displacement. */
  function Start(regs: seq<uint32>, f: Form): int
    requires |regs| == 8 && f.rm < 8
  {
    (if f.HasSib() then if f.Base() == 5 && f.mod == 0 then 0 else regs[f.Base()]
     else if f.mod == 0 && f.rm == 5 then 0 else regs[f.rm])
    + if f.HasSib() && f.Index() != 4 then regs[f.Index()] * Power2(f.Scale()) else 0
  }

  lemma {:induction false} StartOf(regs: seq<uint32>, m: ModRM, f: Form)
    requires |regs| == 8 && m.mod == f.mod < 3 && m.rm == f.rm < 8 && m.sib == f.sib
    ensures m.rm == 4 && !(f.Base() == 5 && f.mod == 0) ==> GetSib(regs, m) == Add(0, Start(regs, f))
    ensures m.rm == 4 && f.Base() == 5 && f.mod == 0 ==> GetSib(regs, m) == Add(m.disp32, Start(regs, f))
    ensures m.rm != 4 && !(m.rm == 5 && f.mod == 0) ==> regs[m.rm] == Add(0, Start(regs, f))
    ensures m.rm == 5 && f.mod == 0 ==> Start(regs, f) == 0
  {
    hide Power2;
    if m.rm == 4 && f.Index() != 4 {
      var r := if f.Base() == 5 && f.mod == 0 then m.disp32 else regs[f.Base()];
      AddAdd(r, regs[f.Index()] * Power2(f.Scale()), 0);
    }
  }

  /** Decoding a memory operand gives the effective address exactly when there is no 8-bit displacement of -128. */
  lemma {:induction false} AddressIsRight(regs: seq<uint32>, m: ModRM, code: uint32 -> byte, eip: uint32)
    requires |regs| == 8 && Parsed(m, code, eip) && m.mod < 3
    ensures m.rm < 8
    ensures CalcMemoryAddress32(regs, m) == EffectiveAddress(regs, code, eip) <==> !BadDisp(code, eip)
    ensures BadDisp(code, eip) ==> CalcMemoryAddress32(regs, m) == Add(EffectiveAddress(regs, code, eip), 0x100)
  {
    var f := FormAt(code, eip);
    assert m.mod == f.mod && m.rm == f.rm < 8 && m.sib == f.sib;
    var start := Start(regs, f);
    var disp := if f.DispSize() == 1 then Sign8(Code(code, eip, f.at)) else if f.DispSize() == 4
        then Code32(code, eip, f.at) else 0;
    assert EffectiveAddress(regs, code, eip) == Add(0, start + disp);
    StartOf(regs, m, f);
    hide EffectiveAddress, Start, GetSib, Add, Sub, Code32, Sign8, Neg8, Extend8;
    AddAdd(0, start, disp);
    if m.mod == 1 {
      var b := Code(code, eip, f.at);
      Disp8(Add(0, start), b);
      Apart(Add(0, start));
      assert b == 0x80 ==> disp == -0x80 by {
        SignOf80();
      }
      AddAdd(0, start, 0x80);
    } else if m.mod == 0 && (m.rm == 5 || (m.rm == 4 && f.Base() == 5)) {
      Commute(m.disp32, start);
      AddAdd(0, disp, 0);
    } else {
      AddAdd(0, start, 0);
    }
  }

  lemma {:induction false} SignOf80()
    ensures Sign8(0x80) == -0x80
  {
  }

  lemma {:induction false} Commute(a: uint32, b: int)
    ensures Add(a, b) == Add(0, b + a) && Add(0, a) == a
  {
  }
}
