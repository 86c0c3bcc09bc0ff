/** The regular expressions of grep.c, on the characters of C strings without their final NUL. */
module Grep {

  /** One character, '.' standing for any, or a starred one. */
  datatype Atom = One(c: char) | Star(c: char)

  predicate Ok(c: char, x: char) { c == '.' || c == x }

  /** The pattern begins with a starred character. */
  predicate Starred(re: string) { |re| >= 2 && re[1] == '*' }

  /** The atoms of a pattern; a final '$' is not one of them. */
  function Atoms(re: string): seq<Atom> {
    if re == [] then []
    else if Starred(re) then [Star(re[0])] + Atoms(re[2..])
    else if re == "$" then []
    else [One(re[0])] + Atoms(re[1..])
  }

  /** The pattern ends with a '$' of its own. */
  predicate Dollar(re: string) {
    re != [] && if Starred(re) then Dollar(re[2..]) else re == "$" || Dollar(re[1..])
  }

  // ---- The language a pattern denotes --------------------------------------------------------------------

  ghost predicate AtomIn(a: Atom, u: string) {
    match a
    case One(c) => |u| == 1 && Ok(c, u[0])
    case Star(c) => forall i: nat :: i < |u| ==> Ok(c, u[i])
  }

  /** w is a concatenation of words of the atoms, in order. */
  ghost predicate In(atoms: seq<Atom>, w: string)
    decreases |atoms|
  {
    if atoms == [] then w == [] else exists k: nat :: Splits(atoms, w, k)
  }

  ghost predicate Splits(atoms: seq<Atom>, w: string, k: nat)
    requires atoms != []
    decreases |atoms|, 0
  {
    k <= |w| && AtomIn(atoms[0], w[..k]) && In(atoms[1..], w[k..])
  }

  /** The first k characters of text match, and are all of it if the pattern says so. */
  ghost predicate Prefix(re: string, text: string, k: nat) {
    k <= |text| && In(Atoms(re), text[..k]) && (Dollar(re) ==> k == |text|)
  }

  ghost predicate Here(re: string, text: string) { exists k: nat :: Prefix(re, text, k) }

  // ---- Unfolding the language the way the matcher does ------------------------------------------------------

  /** The first j characters of text all match c. */
  ghost predicate Skips(c: char, text: string, j: nat) { j <= |text| && forall i: nat :: i < j ==> Ok(c, text[i]) }

  lemma {:induction false} PrefixSplits(re: string, rest: string, a: Atom, text: string, k: nat, j: nat)
    requires Atoms(re) == [a] + Atoms(rest) && Dollar(re) == Dollar(rest) && j <= k <= |text|
    ensures Prefix(re, text, k) && Splits(Atoms(re), text[..k], j) ==>
              AtomIn(a, text[..j]) && Prefix(rest, text[j..], k - j)
    ensures AtomIn(a, text[..j]) && Prefix(rest, text[j..], k - j) ==> Prefix(re, text, k)
  {
    var w := text[..k];
    assert w[..j] == text[..j] && w[j..] == text[j..][..k - j];
    assert Atoms(re)[1..] == Atoms(rest);
    if AtomIn(a, text[..j]) && Prefix(rest, text[j..], k - j) {
      assert Splits(Atoms(re), w, j);
    }
  }

  /** A pattern that begins with atom a matches here exactly if a matches some j characters and the rest matches
      behind them. */
  lemma {:induction false} HereFirst(re: string, rest: string, a: Atom, text: string)
    requires Atoms(re) == [a] + Atoms(rest) && Dollar(re) == Dollar(rest)
    ensures Here(re, text) <==> exists j: nat :: j <= |text| && AtomIn(a, text[..j]) && Here(rest, text[j..])
  {
    if Here(re, text) {
      var k: nat :| Prefix(re, text, k);
      var atoms, w := Atoms(re), text[..k];
      assert atoms != [] && In(atoms, w);
      var j: nat :| Splits(atoms, w, j);
      PrefixSplits(re, rest, a, text, k, j);
    }
    if j: nat :| j <= |text| && AtomIn(a, text[..j]) && Here(rest, text[j..]) {
      var m: nat :| Prefix(rest, text[j..], m);
      PrefixSplits(re, rest, a, text, j + m, j);
      assert Prefix(re, text, j + m);
    }
  }

  lemma {:induction false} HereStar(re: string, text: string)
    requires Starred(re)
    ensures Here(re, text) <==> exists j: nat :: Skips(re[0], text, j) && Here(re[2..], text[j..])
  {
    HereFirst(re, re[2..], Star(re[0]), text);
    forall j: nat | j <= |text|
      ensures AtomIn(Star(re[0]), text[..j]) <==> Skips(re[0], text, j)
    {
      assert forall i: nat :: i < j ==> text[..j][i] == text[i];
    }
  }

  lemma {:induction false} HereOne(re: string, text: string)
    requires re != [] && !Starred(re) && re != "$"
    ensures Here(re, text) <==> text != [] && Ok(re[0], text[0]) && Here(re[1..], text[1..])
  {
    HereFirst(re, re[1..], One(re[0]), text);
    if text != [] {
      assert text[..1] == [text[0]];
    }
  }

  lemma {:induction false} HereEnd(re: string, text: string)
    requires re == [] || re == "$"
    ensures Here(re, text) <==> re == [] || text == []
  {
    assert text[..0] == [];
    assert Prefix(re, text, 0) <==> re == [] || text == [];
    forall k: nat | Prefix(re, text, k)
      ensures k == 0
    {
      assert In([], text[..k]);
    }
  }

  // ---- The matcher ---------------------------------------------------------------------------------------------

  method MatchHere(re: string, text: string) returns (b: bool)
    ensures b <==> Here(re, text)
    decreases |re|, 0
  {
    if re == [] {
      HereEnd(re, text);
      b := true;
    } else if |re| >= 2 && re[1] == '*' {
      HereStar(re, text);
      b := MatchStar(re[0], re[2..], text);
    } else if re[0] == '$' && |re| == 1 {
      HereEnd(re, text);
      b := text == [];
    } else {
      HereOne(re, text);
      if text != [] && (re[0] == '.' || re[0] == text[0]) {
        b := MatchHere(re[1..], text[1..]);
      } else {
        b := false;
      }
    }
  }

  method MatchStar(c: char, re: string, text: string) returns (b: bool)
    ensures b <==> exists j: nat :: Skips(c, text, j) && Here(re, text[j..])
    decreases |re|, 1
  {
    var i := 0;
    b := MatchHere(re, text[i..]);
    while !b && i < |text| && (text[i] == c || c == '.')
      invariant Skips(c, text, i) && (b <==> Here(re, text[i..]))
      invariant forall j: nat :: j < i ==> !Here(re, text[j..])
    {
      i := i + 1;
      b := MatchHere(re, text[i..]);
    }
    assert !b ==> forall j: nat :: Skips(c, text, j) ==> j <= i;
  }

  method Match(re: string, text: string) returns (b: bool)
    ensures b <==> if re != [] && re[0] == '^' then Here(re[1..], text)
                   else exists j: nat :: j <= |text| && Here(re, text[j..])
  {
    if re != [] && re[0] == '^' {
      b := MatchHere(re[1..], text);
    } else {
      var i := 0;
      b := MatchHere(re, text[i..]);
      while !b && i < |text|
        invariant i <= |text| && (b <==> Here(re, text[i..]))
        invariant forall j: nat :: j < i ==> !Here(re, text[j..])
      {
        i := i + 1;
        b := MatchHere(re, text[i..]);
      }
    }
  }
}
