/** The part of the extended regular expressions of IEEE Std 1003.1, section 9.4, that the compiler emits:
    ordinary characters, escaped specials, `.`, groups, alternation and `?`. A text that uses anything else (other
    repetitions, brackets, anchors, an unmatched parenthesis) has no reading here. An empty alternative, which the
    standard leaves undefined, is read as the empty string. */
module Regex {
  import opened Options

  /** Syntax trees follow the grammar: alternatives of concatenations of (optional) atoms. */
  datatype Alt = One(cat: Cat) | Or(cat: Cat, rest: Alt)
  datatype Cat = Nil | Cons(piece: Piece, rest: Cat)
  datatype Piece = Piece(atom: Atom, optional: bool)
  datatype Atom = Lit(c: char) | Esc(c: char) | Any | Group(alt: Alt)

  /** The special characters of section 9.4.3. */
  predicate IsSpecial(c: char) {
    c in ".[\\()*+?{|^$"
  }

  // ----- Text of a tree -----

  function PrintAlt(a: Alt): string {
    match a
    case One(c) => PrintCat(c)
    case Or(c, rest) => PrintCat(c) + "|" + PrintAlt(rest)
  }

  function PrintCat(c: Cat): string {
    match c
    case Nil => ""
    case Cons(p, rest) => PrintPiece(p) + PrintCat(rest)
  }

  function PrintPiece(p: Piece): string {
    PrintAtom(p.atom) + if p.optional then "?" else ""
  }

  function PrintAtom(a: Atom): string {
    match a
    case Lit(c) => [c]
    case Esc(c) => ['\\', c]
    case Any => "."
    case Group(alt) => "(" + PrintAlt(alt) + ")"
  }

  // ----- Trees whose literals are ordinary and whose escapes are special -----

  predicate WfAlt(a: Alt) {
    match a
    case One(c) => WfCat(c)
    case Or(c, rest) => WfCat(c) && WfAlt(rest)
  }

  predicate WfCat(c: Cat) {
    match c
    case Nil => true
    case Cons(p, rest) => WfAtom(p.atom) && WfCat(rest)
  }

  predicate WfAtom(a: Atom) {
    match a
    case Lit(c) => !IsSpecial(c)
    case Esc(c) => IsSpecial(c)
    case Any => true
    case Group(alt) => WfAlt(alt)
  }

  // ----- Trees without empty alternatives, whose meaning the standard defines -----

  predicate StrictAlt(a: Alt) {
    match a
    case One(c) => c != Nil && StrictCat(c)
    case Or(c, rest) => c != Nil && StrictCat(c) && StrictAlt(rest)
  }

  predicate StrictCat(c: Cat) {
    match c
    case Nil => true
    case Cons(p, rest) => (p.atom.Group? ==> StrictAlt(p.atom.alt)) && StrictCat(rest)
  }

  // ----- Parser -----

  /** An alternation at the front of `t`, with the text left after it. */
  function ParseAlt(t: string): (r: Option<(Alt, string)>)
    ensures r.Some? ==> |r.value.1| <= |t|
    decreases |t|, 2
  {
    match ParseCat(t)
    case None => None
    case Some((c, rest)) =>
      if rest != "" && rest[0] == '|' then
        (match ParseAlt(rest[1..])
         case None => None
         case Some((a, rest')) => Some((Or(c, a), rest')))
      else Some((One(c), rest))
  }

  function ParseCat(t: string): (r: Option<(Cat, string)>)
    ensures r.Some? ==> |r.value.1| <= |t|
    decreases |t|, 1
  {
    if t == "" || t[0] == '|' || t[0] == ')' then Some((Nil, t))
    else
      match ParseAtom(t)
      case None => None
      case Some((a, rest)) =>
        var optional := rest != "" && rest[0] == '?';
        match ParseCat(if optional then rest[1..] else rest)
        case None => None
        case Some((c, rest')) => Some((Cons(Piece(a, optional), c), rest'))
  }

  function ParseAtom(t: string): (r: Option<(Atom, string)>)
    requires t != ""
    ensures r.Some? ==> |r.value.1| < |t|
    decreases |t|, 0
  {
    if t[0] == '(' then
      (match ParseAlt(t[1..])
       case None => None
       case Some((a, rest)) => if rest != "" && rest[0] == ')' then Some((Group(a), rest[1..])) else None)
    else if t[0] == '\\' then
      if |t| > 1 && IsSpecial(t[1]) then Some((Esc(t[1]), t[2..])) else None
    else if t[0] == '.' then Some((Any, t[1..]))
    else if IsSpecial(t[0]) then None
    else Some((Lit(t[0]), t[1..]))
  }

  /** A whole expression. */
  function Parse(t: string): Option<Alt> {
    match ParseAlt(t)
    case None => None
    case Some((a, rest)) => if rest == "" then Some(a) else None
  }

  // ----- The parser inverts the printer, both ways -----

  predicate EndsAlt(rest: string) {
    rest == "" || rest[0] == ')'
  }

  predicate EndsCat(rest: string) {
    rest == "" || rest[0] == ')' || rest[0] == '|'
  }

  lemma {:induction false} ParsePrintAlt(a: Alt, rest: string)
    requires WfAlt(a) && EndsAlt(rest)
    ensures ParseAlt(PrintAlt(a) + rest) == Some((a, rest))
    decreases a
  {
    match a
    case One(c) => ParsePrintCat(c, rest);
    case Or(c, more) =>
      var tail := "|" + PrintAlt(more) + rest;
      assert PrintAlt(a) + rest == PrintCat(c) + tail;
      ParsePrintCat(c, tail);
      assert tail[1..] == PrintAlt(more) + rest;
      ParsePrintAlt(more, rest);
  }

  lemma {:induction false} ParsePrintCat(c: Cat, rest: string)
    requires WfCat(c) && EndsCat(rest)
    ensures ParseCat(PrintCat(c) + rest) == Some((c, rest))
    decreases c
  {
    match c
    case Nil => assert PrintCat(c) + rest == rest;
    case Cons(p, more) =>
      var after := PrintCat(more) + rest;
      var mid := (if p.optional then "?" else "") + after;
      assert PrintCat(c) + rest == PrintAtom(p.atom) + mid;
      ParsePrintAtom(p.atom, mid);
      ParsePrintCat(more, rest);
      PrintStart(more, rest);
      if p.optional {
        assert mid[1..] == after;
      } else {
        assert mid == after;
      }
  }

  lemma {:induction false} ParsePrintAtom(a: Atom, rest: string)
    requires WfAtom(a)
    ensures PrintAtom(a) != "" && PrintAtom(a)[0] !in "?|)"
    ensures ParseAtom(PrintAtom(a) + rest) == Some((a, rest))
    decreases a
  {
    var t := PrintAtom(a) + rest;
    match a
    case Lit(c) => assert t[1..] == rest;
    case Esc(c) => assert t[2..] == rest;
    case Any => assert t[1..] == rest;
    case Group(alt) =>
      assert t[1..] == PrintAlt(alt) + (")" + rest);
      ParsePrintAlt(alt, ")" + rest);
      assert (")" + rest)[1..] == rest;
  }

  /** No printed concatenation starts with `?`. */
  lemma PrintStart(c: Cat, rest: string)
    requires WfCat(c) && EndsCat(rest)
    ensures var t := PrintCat(c) + rest; t == "" || t[0] != '?'
  {
    if c.Cons? {
      ParsePrintAtom(c.piece.atom, "");
    }
  }

  lemma {:induction false} ParseAltSound(t: string)
    ensures var r := ParseAlt(t); r.Some? ==> WfAlt(r.value.0) && t == PrintAlt(r.value.0) + r.value.1
    decreases |t|, 2
  {
    ParseCatSound(t);
    var r := ParseCat(t);
    if r.Some? && r.value.1 != "" && r.value.1[0] == '|' {
      ParseAltSound(r.value.1[1..]);
    }
  }

  lemma {:induction false} ParseCatSound(t: string)
    ensures var r := ParseCat(t); r.Some? ==> WfCat(r.value.0) && t == PrintCat(r.value.0) + r.value.1
    decreases |t|, 1
  {
    if t != "" && t[0] != '|' && t[0] != ')' {
      ParseAtomSound(t);
      match ParseAtom(t)
      case None =>
      case Some((a, rest)) =>
        var optional := rest != "" && rest[0] == '?';
        var next := if optional then rest[1..] else rest;
        assert rest == (if optional then "?" else "") + next;
        ParseCatSound(next);
        if ParseCat(next).Some? {
          PrintConsText(Piece(a, optional), ParseCat(next).value.0, ParseCat(next).value.1);
        }
    }
  }

  lemma PrintConsText(p: Piece, c: Cat, rest: string)
    ensures PrintCat(Cons(p, c)) + rest ==
            PrintAtom(p.atom) + ((if p.optional then "?" else "") + (PrintCat(c) + rest))
  {
  }

  lemma {:induction false} ParseAtomSound(t: string)
    requires t != ""
    ensures var r := ParseAtom(t); r.Some? ==> WfAtom(r.value.0) && t == PrintAtom(r.value.0) + r.value.1
    decreases |t|, 0
  {
    if t[0] == '(' {
      ParseAltSound(t[1..]);
    }
  }

  /** A text has a tree exactly when it is the text of a well-formed tree, and then that tree is its only one. */
  lemma ParseExactly(t: string, a: Alt)
    ensures Parse(t) == Some(a) <==> WfAlt(a) && PrintAlt(a) == t
  {
    ParseAltSound(t);
    if WfAlt(a) && PrintAlt(a) == t {
      assert t + "" == t;
      ParsePrintAlt(a, "");
    }
    var r := ParseAlt(t);
    if r.Some? && r.value.1 == "" {
      assert PrintAlt(r.value.0) + "" == PrintAlt(r.value.0);
    }
  }

  // ----- Meaning -----

  predicate InAlt(a: Alt, s: string)
    decreases a
  {
    match a
    case One(c) => InCat(c, s)
    case Or(c, rest) => InCat(c, s) || InAlt(rest, s)
  }

  predicate InCat(c: Cat, s: string)
    decreases c
  {
    match c
    case Nil => s == ""
    case Cons(p, rest) => exists i :: 0 <= i <= |s| && InPiece(p, s[..i]) && InCat(rest, s[i..])
  }

  predicate InPiece(p: Piece, s: string)
    decreases p
  {
    (p.optional && s == "") || InAtom(p.atom, s)
  }

  predicate InAtom(a: Atom, s: string)
    decreases a
  {
    match a
    case Lit(c) => s == [c]
    case Esc(c) => s == [c]
    case Any => |s| == 1
    case Group(alt) => InAlt(alt, s)
  }

  /** The text is an expression of the dialect and matches the whole of `s`. */
  predicate Accepts(t: string, s: string) {
    var r := Parse(t);
    r.Some? && InAlt(r.value, s)
  }

  lemma InCons(p: Piece, rest: Cat, x: string, y: string)
    requires InPiece(p, x) && InCat(rest, y)
    ensures InCat(Cons(p, rest), x + y)
  {
    var s := x + y;
    assert s[..|x|] == x && s[|x|..] == y;
  }

  lemma InLast(a: Atom, s: string)
    ensures InCat(Cons(Piece(a, false), Nil), s) <==> InAtom(a, s)
  {
    assert s[..|s|] == s;
  }
}
