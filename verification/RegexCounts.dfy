/** What the length and the special characters of an expression's text say about its tree, and when a tree matches one
    string, or two, and nothing else. */
module RegexCounts {
  import opened Regex

  /** How many leaves, wildcards, groups, question marks and bars a tree has, and which characters it escapes. */
  datatype Tally = Tally(leaves: nat, anys: nat, groups: nat, opts: nat, ors: nat, escaped: multiset<char>) {
    function Plus(t: Tally): Tally {
      Tally(leaves + t.leaves, anys + t.anys, groups + t.groups, opts + t.opts, ors + t.ors, escaped + t.escaped)
    }

    /** How often a special character stands in the text. */
    function Written(c: char): nat {
      escaped[c] +
      match c
      case '.' => anys
      case '(' => groups
      case ')' => groups
      case '?' => opts
      case '|' => ors
      case '\\' => |escaped|
      case _ => 0
    }

    function Length(): nat {
      leaves + |escaped| + 2 * groups + opts + ors
    }
  }

  const NONE := Tally(0, 0, 0, 0, 0, multiset{})

  function AltTally(a: Alt): Tally {
    match a
    case One(c) => CatTally(c)
    case Or(c, rest) => CatTally(c).Plus(AltTally(rest)).Plus(NONE.(ors := 1))
  }

  function CatTally(c: Cat): Tally {
    match c
    case Nil => NONE
    case Cons(p, rest) => PieceTally(p).Plus(CatTally(rest))
  }

  function PieceTally(p: Piece): Tally {
    AtomTally(p.atom).Plus(NONE.(opts := if p.optional then 1 else 0))
  }

  function AtomTally(a: Atom): Tally {
    match a
    case Lit(_) => NONE.(leaves := 1)
    case Esc(c) => NONE.(leaves := 1, escaped := multiset{c})
    case Any => NONE.(leaves := 1, anys := 1)
    case Group(alt) => AltTally(alt).Plus(NONE.(groups := 1))
  }

  /** `s` has the length and the special characters that `t` says. */
  predicate Tells(t: Tally, s: string) {
    |s| == t.Length() && forall c :: IsSpecial(c) ==> multiset(s)[c] == t.Written(c)
  }

  lemma TellsPlus(t: Tally, s: string, u: Tally, r: string)
    requires Tells(t, s) && Tells(u, r)
    ensures Tells(t.Plus(u), s + r)
  {
  }

  lemma {:induction false} AltTells(a: Alt)
    requires WfAlt(a)
    ensures Tells(AltTally(a), PrintAlt(a))
  {
    match a
    case One(c) => CatTells(c);
    case Or(c, rest) =>
      CatTells(c);
      AltTells(rest);
      TellsPlus(CatTally(c), PrintCat(c), AltTally(rest), PrintAlt(rest));
      BarTells(CatTally(c).Plus(AltTally(rest)), PrintCat(c), PrintAlt(rest));
  }

  lemma BarTells(t: Tally, s: string, r: string)
    requires Tells(t, s + r)
    ensures Tells(t.Plus(NONE.(ors := 1)), s + "|" + r)
  {
    assert multiset(s + "|" + r) == multiset(s + r) + multiset{'|'};
  }

  lemma {:induction false} CatTells(c: Cat)
    requires WfCat(c)
    ensures Tells(CatTally(c), PrintCat(c))
  {
    match c
    case Nil =>
    case Cons(p, rest) =>
      AtomTells(p.atom);
      CatTells(rest);
      MarkTells(p);
      TellsPlus(PieceTally(p), PrintPiece(p), CatTally(rest), PrintCat(rest));
  }

  lemma MarkTells(p: Piece)
    requires Tells(AtomTally(p.atom), PrintAtom(p.atom))
    ensures Tells(PieceTally(p), PrintPiece(p))
  {
    var n := if p.optional then 1 else 0;
    assert Tells(NONE.(opts := n), if p.optional then "?" else "") by {
      assert multiset("?") == multiset{'?'};
    }
    TellsPlus(AtomTally(p.atom), PrintAtom(p.atom), NONE.(opts := n), if p.optional then "?" else "");
  }

  lemma {:induction false} AtomTells(a: Atom)
    requires WfAtom(a)
    ensures Tells(AtomTally(a), PrintAtom(a))
  {
    match a
    case Lit(c) =>
    case Esc(c) => assert multiset(['\\', c]) == multiset{'\\', c};
    case Any => assert multiset(".") == multiset{'.'};
    case Group(alt) =>
      AltTells(alt);
      ParensTell(AltTally(alt), PrintAlt(alt));
  }

  lemma ParensTell(t: Tally, s: string)
    requires Tells(t, s)
    ensures Tells(t.Plus(NONE.(groups := 1)), "(" + s + ")")
  {
    var open, close := "(", ")";
    assert multiset(open + s + close) == multiset(s) + multiset{'(', ')'};
  }

  // ----- A character that never follows a backslash is not escaped -----

  predicate Unescaped(s: string, c: char) {
    forall i :: 0 < i < |s| && s[i] == c ==> s[i - 1] != '\\'
  }

  lemma UnescapedParts(s: string, r: string, c: char)
    requires Unescaped(s + r, c)
    ensures Unescaped(s, c) && Unescaped(r, c)
  {
    assert forall i :: 0 <= i < |s| ==> (s + r)[i] == s[i];
    assert forall i :: 0 <= i < |r| ==> (s + r)[|s| + i] == r[i];
  }

  lemma {:induction false} AltUnescaped(a: Alt, c: char)
    requires Unescaped(PrintAlt(a), c)
    ensures AltTally(a).escaped[c] == 0
  {
    match a
    case One(cat) => CatUnescaped(cat, c);
    case Or(cat, rest) =>
      UnescapedParts(PrintCat(cat) + "|", PrintAlt(rest), c);
      UnescapedParts(PrintCat(cat), "|", c);
      CatUnescaped(cat, c);
      AltUnescaped(rest, c);
  }

  lemma {:induction false} CatUnescaped(cat: Cat, c: char)
    requires Unescaped(PrintCat(cat), c)
    ensures CatTally(cat).escaped[c] == 0
  {
    match cat
    case Nil =>
    case Cons(p, rest) =>
      UnescapedParts(PrintPiece(p), PrintCat(rest), c);
      UnescapedParts(PrintAtom(p.atom), if p.optional then "?" else "", c);
      AtomUnescaped(p.atom, c);
      CatUnescaped(rest, c);
  }

  lemma {:induction false} AtomUnescaped(a: Atom, c: char)
    requires Unescaped(PrintAtom(a), c)
    ensures AtomTally(a).escaped[c] == 0
  {
    match a
    case Lit(_) =>
    case Esc(d) => EscapeShows(d);
    case Any =>
    case Group(alt) =>
      UnescapedParts("(" + PrintAlt(alt), ")", c);
      UnescapedParts("(", PrintAlt(alt), c);
      AltUnescaped(alt, c);
  }

  lemma EscapeShows(c: char)
    ensures !Unescaped(['\\', c], c)
  {
    var s := ['\\', c];
    assert s[1] == c && s[1 - 1] == '\\';
  }

  // ----- The matches of a tree -----

  /** No match is longer than the number of leaves. */
  lemma {:induction false} AltLongest(a: Alt, s: string)
    requires InAlt(a, s)
    ensures |s| <= AltTally(a).leaves
  {
    match a
    case One(c) => CatLongest(c, s);
    case Or(c, rest) => if InCat(c, s) { CatLongest(c, s); } else { AltLongest(rest, s); }
  }

  lemma {:induction false} CatLongest(c: Cat, s: string)
    requires InCat(c, s)
    ensures |s| <= CatTally(c).leaves
  {
    match c
    case Nil =>
    case Cons(p, rest) =>
      var i :| 0 <= i <= |s| && InPiece(p, s[..i]) && InCat(rest, s[i..]);
      if InAtom(p.atom, s[..i]) { AtomLongest(p.atom, s[..i]); }
      CatLongest(rest, s[i..]);
  }

  lemma {:induction false} AtomLongest(a: Atom, s: string)
    requires InAtom(a, s)
    ensures |s| <= AtomTally(a).leaves
  {
    match a
    case Group(alt) => AltLongest(alt, s);
    case _ =>
  }

  /** The leaves of a tree, from left to right, with `x` for each wildcard. */
  function AltLeaves(a: Alt, x: char): string {
    match a
    case One(c) => CatLeaves(c, x)
    case Or(c, rest) => CatLeaves(c, x) + AltLeaves(rest, x)
  }

  function CatLeaves(c: Cat, x: char): string {
    match c
    case Nil => ""
    case Cons(p, rest) => AtomLeaves(p.atom, x) + CatLeaves(rest, x)
  }

  function AtomLeaves(a: Atom, x: char): string {
    match a
    case Lit(c) => [c]
    case Esc(c) => [c]
    case Any => [x]
    case Group(alt) => AltLeaves(alt, x)
  }

  /** Without alternatives, the leaves are a match. */
  lemma {:induction false} AltLeavesMatch(a: Alt, x: char)
    requires AltTally(a).ors == 0
    ensures InAlt(a, AltLeaves(a, x)) && |AltLeaves(a, x)| == AltTally(a).leaves
  {
    match a
    case One(c) => CatLeavesMatch(c, x);
    case Or(_, _) =>
  }

  lemma {:induction false} CatLeavesMatch(c: Cat, x: char)
    requires CatTally(c).ors == 0
    ensures InCat(c, CatLeaves(c, x)) && |CatLeaves(c, x)| == CatTally(c).leaves
  {
    match c
    case Nil =>
    case Cons(p, rest) =>
      AtomLeavesMatch(p.atom, x);
      CatLeavesMatch(rest, x);
      InCons(p, rest, AtomLeaves(p.atom, x), CatLeaves(rest, x));
  }

  lemma {:induction false} AtomLeavesMatch(a: Atom, x: char)
    requires AtomTally(a).ors == 0
    ensures InAtom(a, AtomLeaves(a, x)) && |AtomLeaves(a, x)| == AtomTally(a).leaves
  {
    match a
    case Group(alt) => AltLeavesMatch(alt, x);
    case _ =>
  }

  /** With a wildcard, the leaves differ with what it stands for. */
  lemma {:induction false} AltLeavesDiffer(a: Alt, x: char, y: char)
    requires x != y
    ensures |AltLeaves(a, x)| == |AltLeaves(a, y)| && (AltTally(a).anys > 0 ==> AltLeaves(a, x) != AltLeaves(a, y))
  {
    match a
    case One(c) => CatLeavesDiffer(c, x, y);
    case Or(c, rest) =>
      CatLeavesDiffer(c, x, y);
      AltLeavesDiffer(rest, x, y);
      Differ(CatLeaves(c, x), AltLeaves(rest, x), CatLeaves(c, y), AltLeaves(rest, y));
  }

  lemma {:induction false} CatLeavesDiffer(c: Cat, x: char, y: char)
    requires x != y
    ensures |CatLeaves(c, x)| == |CatLeaves(c, y)| && (CatTally(c).anys > 0 ==> CatLeaves(c, x) != CatLeaves(c, y))
  {
    match c
    case Nil =>
    case Cons(p, rest) =>
      AtomLeavesDiffer(p.atom, x, y);
      CatLeavesDiffer(rest, x, y);
      Differ(AtomLeaves(p.atom, x), CatLeaves(rest, x), AtomLeaves(p.atom, y), CatLeaves(rest, y));
      assert CatTally(c).anys == AtomTally(p.atom).anys + CatTally(rest).anys;
  }

  lemma {:induction false} AtomLeavesDiffer(a: Atom, x: char, y: char)
    requires x != y
    ensures |AtomLeaves(a, x)| == |AtomLeaves(a, y)| && (AtomTally(a).anys > 0 ==> AtomLeaves(a, x) != AtomLeaves(a, y))
  {
    match a
    case Group(alt) => AltLeavesDiffer(alt, x, y);
    case _ =>
  }

  lemma Differ(s: string, r: string, s': string, r': string)
    requires |s| == |s'|
    ensures s + r == s' + r' ==> s == s' && r == r'
  {
    if s + r == s' + r' {
      assert s == (s + r)[..|s|] && r == (s + r)[|s|..];
    }
  }

  /** A tree without alternatives that matches `s`, and besides at most one shorter string, has no wildcard and one
      leaf for each character of `s`. */
  lemma ExactLeaves(a: Alt, s: string, r: string)
    requires AltTally(a).ors == 0 && InAlt(a, s) && (r == s || |r| < |s|)
    requires forall t :: InAlt(a, t) ==> t == s || t == r
    ensures AltTally(a).leaves == |s| && AltTally(a).anys == 0
  {
    AltLongest(a, s);
    AltLeavesMatch(a, 'a');
    AltLeavesMatch(a, 'b');
    AltLeavesDiffer(a, 'a', 'b');
  }
}
