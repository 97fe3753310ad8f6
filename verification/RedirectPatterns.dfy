/** The pattern texts written for the buckets, the syntax trees those texts stand for, and what the trees match. */
module RedirectPatterns {
  import opened Text
  import opened Regex
  import opened RedirectEntries

  // ----- Emitted texts, for a given iteration order of the buckets -----

  function EscapeDots(s: string): string {
    Replace(s, ".", "\\.")
  }

  ghost predicate IsOrder(order: seq<string>, m: Buckets) {
    && (forall i, j :: 0 <= i < j < |order| ==> order[i] != order[j])
    && (forall k :: k in order <==> k in m)
  }

  function BucketText(k: string, v: seq<string>): string {
    if |v| == 1 then "(" + Join(v, "|") + "." + k + ")"
    else "(" + "(" + Join(v, "|") + ")." + k + ")"
  }

  function BucketTexts(order: seq<string>, m: Buckets): seq<string>
    requires forall k :: k in order ==> k in m
  {
    seq(|order|, i requires 0 <= i < |order| => BucketText(order[i], m[order[i]]))
  }

  function TwoText(order: seq<string>, m: Buckets): string
    requires forall k :: k in order ==> k in m
  {
    if order == [] then ""
    else
      var body := Join(BucketTexts(order, m), "|");
      EscapeDots("(www.)?" + if '|' in body then "(" + body + ")" else body)
  }

  function LongText(order: seq<string>, m: Buckets): string
    requires forall k :: k in order ==> k in m
  {
    if order == [] then ""
    else
      var body := Join(BucketTexts(order, m), "|");
      EscapeDots(if '|' in body then "(" + body + ")" else body)
  }

  function CombinedText(two: string, long: string): string {
    if two != "" && long != "" then "((" + two + ")|(" + long + "))"
    else if two == "" then long
    else two
  }

  function HttpBody(vs: seq<string>): string {
    if |vs| == 1 then vs[0]
    else Join(seq(|vs|, i requires 0 <= i < |vs| => "(" + vs[i] + ")"), "|")
  }

  function SchemeText(scheme: string, vs: seq<string>): string {
    EscapeDots(scheme + "(" + HttpBody(vs) + ")")
  }

  // ----- The trees those texts stand for -----

  function Ordinary(c: char): Piece {
    Piece(if c == '.' then Esc(c) else Lit(c), false)
  }

  /** The characters of `w`, then `c`. */
  function LitThen(w: string, c: Cat): Cat {
    if w == "" then c else Cons(Ordinary(w[0]), LitThen(w[1..], c))
  }

  function LitCat(w: string): Cat {
    LitThen(w, Nil)
  }

  function Single(a: Alt): Cat {
    Cons(Piece(Group(a), false), Nil)
  }

  function AltOf(cs: seq<Cat>): Alt
    requires cs != []
  {
    if |cs| == 1 then One(cs[0]) else Or(cs[0], AltOf(cs[1..]))
  }

  function LitCats(vs: seq<string>): seq<Cat> {
    seq(|vs|, i requires 0 <= i < |vs| => LitCat(vs[i]))
  }

  function BucketCat(k: string, v: seq<string>): Cat
    requires v != []
  {
    Single(One(if |v| == 1 then LitCat(v[0] + "." + k) else ValuesCat(k, v)))
  }

  function BucketCats(order: seq<string>, m: Buckets): seq<Cat>
    requires NonEmptyBuckets(m) && forall k :: k in order ==> k in m
  {
    seq(|order|, i requires 0 <= i < |order| => BucketCat(order[i], m[order[i]]))
  }

  /** All buckets: the group of alternatives, or the one bucket when no bar was written. */
  function BucketsCat(order: seq<string>, m: Buckets): Cat
    requires order != [] && NonEmptyBuckets(m) && forall k :: k in order ==> k in m
  {
    if '|' in Join(BucketTexts(order, m), "|") then Single(AltOf(BucketCats(order, m)))
    else BucketCat(order[0], m[order[0]])
  }

  const WWW: Piece := Piece(Group(One(LitCat("www."))), true)

  /** The tree of a row's combined pattern. */
  function CombinedAlt(o2: seq<string>, m2: Buckets, oN: seq<string>, mN: Buckets): Alt
    requires o2 != [] || oN != []
    requires NonEmptyBuckets(m2) && forall k :: k in o2 ==> k in m2
    requires NonEmptyBuckets(mN) && forall k :: k in oN ==> k in mN
  {
    if oN == [] then One(Cons(WWW, BucketsCat(o2, m2)))
    else if o2 == [] then One(BucketsCat(oN, mN))
    else One(Single(Or(Single(One(Cons(WWW, BucketsCat(o2, m2)))), One(Single(One(BucketsCat(oN, mN)))))))
  }

  function SchemeAlt(scheme: string, vs: seq<string>): Alt
    requires vs != []
  {
    One(LitThen(scheme, Single(
      if |vs| == 1 then One(LitCat(vs[0]))
      else AltOf(seq(|vs|, i requires 0 <= i < |vs| => Single(One(LitCat(vs[i]))))))))
  }

  // ----- Text of the trees -----

  lemma EscapeCat(a: string, b: string)
    ensures EscapeDots(a + b) == EscapeDots(a) + EscapeDots(b)
  {
    ReplaceCat(a, b, '.', "\\.");
  }

  lemma EscapeOne(c: char)
    ensures EscapeDots([c]) == if c == '.' then "\\." else [c]
    ensures EscapeDots([c]) == PrintPiece(Ordinary(c))
  {
    assert [c][1..] == "";
    assert Replace("", ".", "\\.") == "";
    if c == '.' {
      assert HasPrefix([c], ".");
      assert PrintPiece(Ordinary(c)) == ['\\', '.'];
    } else {
      var dot := ".";
      assert [c] != dot by {
        assert [c][0] != dot[0];
      }
    }
  }

  lemma Parens(a: string)
    ensures EscapeDots("(" + a + ")") == "(" + EscapeDots(a) + ")"
  {
    EscapeCat("(" + a, ")");
    EscapeCat("(", a);
    EscapeOne('(');
    EscapeOne(')');
  }

  lemma {:induction false} LitThenText(w: string, c: Cat)
    ensures PrintCat(LitThen(w, c)) == EscapeDots(w) + PrintCat(c)
  {
    if w != "" {
      LitThenText(w[1..], c);
      EscapeCat([w[0]], w[1..]);
      EscapeOne(w[0]);
      assert w == [w[0]] + w[1..];
      assert PrintCat(LitThen(w, c)) == EscapeDots([w[0]]) + PrintCat(LitThen(w[1..], c));
    }
  }

  lemma LitCatText(w: string)
    ensures PrintCat(LitCat(w)) == EscapeDots(w)
  {
    LitThenText(w, Nil);
    assert EscapeDots(w) + "" == EscapeDots(w);
  }

  lemma AtomText(a: Atom, c: Cat)
    ensures PrintCat(Cons(Piece(a, false), c)) == PrintAtom(a) + PrintCat(c)
  {
    assert PrintPiece(Piece(a, false)) == PrintAtom(a);
  }

  lemma SingleText(a: Alt)
    ensures PrintCat(Single(a)) == "(" + PrintAlt(a) + ")"
  {
    AtomText(Group(a), Nil);
  }

  lemma {:induction false} AltText(cs: seq<Cat>, raw: seq<string>)
    requires |cs| == |raw| > 0
    requires forall i :: 0 <= i < |cs| ==> PrintCat(cs[i]) == EscapeDots(raw[i])
    ensures PrintAlt(AltOf(cs)) == EscapeDots(Join(raw, "|"))
  {
    if |cs| > 1 {
      AltText(cs[1..], raw[1..]);
      var rest := Join(raw[1..], "|");
      EscapeCat(raw[0] + "|", rest);
      EscapeCat(raw[0], "|");
      EscapeOne('|');
    }
  }

  /** The grouped alternatives of a bucket with several values, and its key. */
  function ValuesCat(k: string, v: seq<string>): Cat
    requires v != []
  {
    Cons(Piece(Group(AltOf(LitCats(v))), false), LitCat("." + k))
  }

  lemma ValuesCatText(k: string, v: seq<string>)
    requires v != []
    ensures PrintCat(ValuesCat(k, v)) == EscapeDots("(" + Join(v, "|") + ")" + ("." + k))
  {
    var bar := Join(v, "|");
    forall i | 0 <= i < |v| ensures PrintCat(LitCats(v)[i]) == EscapeDots(v[i]) {
      LitCatText(v[i]);
    }
    AltText(LitCats(v), v);
    LitCatText("." + k);
    EscapeCat("(" + bar + ")", "." + k);
    Parens(bar);
    AtomText(Group(AltOf(LitCats(v))), LitCat("." + k));
  }

  lemma GroupText(k: string, v: seq<string>)
    requires v != []
    ensures BucketText(k, v) == "(" + (if |v| == 1 then v[0] + "." + k else "(" + Join(v, "|") + ")" + ("." + k)) + ")"
  {
    Regroup("(", Join(v, "|"), ")", ".", ").", k);
  }

  lemma Regroup(open: string, bar: string, close: string, dot: string, closeDot: string, k: string)
    requires closeDot == close + dot
    ensures open + open + bar + closeDot + k + close == open + (open + bar + close + (dot + k)) + close
    ensures open + bar + dot + k + close == open + (bar + dot + k) + close
  {
  }

  lemma BucketCatText(k: string, v: seq<string>)
    requires v != []
    ensures PrintCat(BucketCat(k, v)) == EscapeDots(BucketText(k, v))
  {
    var inner := if |v| == 1 then v[0] + "." + k else "(" + Join(v, "|") + ")" + ("." + k);
    hide EscapeDots, PrintCat, BucketText;
    GroupText(k, v);
    Parens(inner);
    if |v| == 1 {
      LitCatText(inner);
      SingleText(One(LitCat(inner)));
    } else {
      ValuesCatText(k, v);
      SingleText(One(ValuesCat(k, v)));
    }
  }

  lemma BucketsCatText(order: seq<string>, m: Buckets)
    requires order != [] && NonEmptyBuckets(m) && forall k :: k in order ==> k in m
    ensures var body := Join(BucketTexts(order, m), "|");
            PrintCat(BucketsCat(order, m)) == EscapeDots(if '|' in body then "(" + body + ")" else body)
  {
    var raw := BucketTexts(order, m);
    var cs := BucketCats(order, m);
    forall i | 0 <= i < |cs| ensures PrintCat(cs[i]) == EscapeDots(raw[i]) {
      BucketCatText(order[i], m[order[i]]);
    }
    if '|' in Join(raw, "|") {
      AltText(cs, raw);
      Parens(Join(raw, "|"));
      SingleText(AltOf(cs));
    } else if |raw| > 1 {
      JoinContains(raw, '|');
    }
  }

  lemma WwwText()
    ensures EscapeDots("(www.)?") == PrintPiece(WWW)
  {
    Parens("www.");
    EscapeCat("(www.)", "?");
    EscapeOne('?');
    LitCatText("www.");
    assert "(" + "www." + ")" == "(www.)";
    assert "(www.)" + "?" == "(www.)?";
  }

  lemma {:induction false} EscapeNone(w: string)
    requires '.' !in w
    ensures EscapeDots(w) == w
  {
    if w != "" {
      EscapeNone(w[1..]);
      EscapeOne(w[0]);
      EscapeCat([w[0]], w[1..]);
      assert w == [w[0]] + w[1..];
    }
  }

  lemma WwwEscaped()
    ensures EscapeDots("(www.)?") == "(www\\.)?"
  {
    EscapeCat("(www", ".)?");
    EscapeCat(".", ")?");
    EscapeOne('.');
    EscapeNone("(www");
    EscapeNone(")?");
    assert "(www" + ".)?" == "(www.)?" && "." + ")?" == ".)?";
  }

  lemma TwoCatText(order: seq<string>, m: Buckets)
    requires order != [] && NonEmptyBuckets(m) && forall k :: k in order ==> k in m
    ensures PrintCat(Cons(WWW, BucketsCat(order, m))) == TwoText(order, m)
  {
    BucketsCatText(order, m);
    WwwText();
    var body := Join(BucketTexts(order, m), "|");
    EscapeCat("(www.)?", if '|' in body then "(" + body + ")" else body);
  }

  lemma CombinedAltText(o2: seq<string>, m2: Buckets, oN: seq<string>, mN: Buckets)
    requires o2 != [] || oN != []
    requires NonEmptyBuckets(m2) && forall k :: k in o2 ==> k in m2
    requires NonEmptyBuckets(mN) && forall k :: k in oN ==> k in mN
    ensures PrintAlt(CombinedAlt(o2, m2, oN, mN)) == CombinedText(TwoText(o2, m2), LongText(oN, mN)) != ""
  {
    hide TwoText, LongText, BucketsCat, WWW;
    NoText(o2, m2);
    NoText(oN, mN);
    if o2 != [] {
      TwoCatText(o2, m2);
    }
    if oN != [] {
      LongCatText(oN, mN);
    }
    if o2 != [] && oN != [] {
      BothText(Cons(WWW, BucketsCat(o2, m2)), BucketsCat(oN, mN));
    }
  }

  lemma NoText(order: seq<string>, m: Buckets)
    requires NonEmptyBuckets(m) && forall k :: k in order ==> k in m
    ensures TwoText(order, m) == "" <==> order == []
    ensures LongText(order, m) == "" <==> order == []
  {
    if order != [] {
      BucketsCatText(order, m);
      TwoCatText(order, m);
      assert PrintCat(BucketsCat(order, m)) != "" && PrintPiece(WWW) != "";
    }
  }

  lemma LongCatText(order: seq<string>, m: Buckets)
    requires order != [] && NonEmptyBuckets(m) && forall k :: k in order ==> k in m
    ensures PrintCat(BucketsCat(order, m)) == LongText(order, m)
  {
    BucketsCatText(order, m);
  }

  lemma BothText(a: Cat, b: Cat)
    ensures PrintCat(Single(Or(Single(One(a)), One(Single(One(b)))))) == "((" + PrintCat(a) + ")|(" + PrintCat(b) + "))"
  {
    var both := Or(Single(One(a)), One(Single(One(b))));
    SingleText(One(a));
    SingleText(One(b));
    SingleText(both);
    assert PrintAlt(both) == "(" + PrintCat(a) + ")" + "|" + ("(" + PrintCat(b) + ")");
  }

  lemma SchemeAltText(scheme: string, vs: seq<string>)
    requires vs != []
    ensures PrintAlt(SchemeAlt(scheme, vs)) == SchemeText(scheme, vs)
  {
    var alt := SchemeAlt(scheme, vs);
    var body := HttpBody(vs);
    if |vs| == 1 {
      LitCatText(vs[0]);
    } else {
      var cs := seq(|vs|, i requires 0 <= i < |vs| => Single(One(LitCat(vs[i]))));
      var raw := seq(|vs|, i requires 0 <= i < |vs| => "(" + vs[i] + ")");
      forall i | 0 <= i < |vs| ensures PrintCat(cs[i]) == EscapeDots(raw[i]) {
        LitCatText(vs[i]);
        Parens(vs[i]);
        SingleText(One(LitCat(vs[i])));
      }
      AltText(cs, raw);
    }
    var group := if |vs| == 1 then One(LitCat(vs[0]))
                 else AltOf(seq(|vs|, i requires 0 <= i < |vs| => Single(One(LitCat(vs[i])))));
    SingleText(group);
    LitThenText(scheme, Single(group));
    Parens(body);
    EscapeCat(scheme, "(" + body + ")");
    assert scheme + "(" + body + ")" == scheme + ("(" + body + ")");
  }

  // ----- Well-formedness -----

  /** Only ordinary characters and dots, so that escaping the dots is enough. */
  predicate Plain(w: string) {
    forall c :: c in w && c != '.' ==> !IsSpecial(c)
  }

  predicate PlainBuckets(m: Buckets) {
    forall k :: k in m ==> Plain(k) && forall v :: v in m[k] ==> Plain(v)
  }

  lemma {:induction false} LitThenWf(w: string, c: Cat)
    requires Plain(w) && WfCat(c)
    ensures WfCat(LitThen(w, c))
  {
    if w != "" {
      assert w[0] in w;
      LitThenWf(w[1..], c);
    }
  }

  lemma {:induction false} AltWf(cs: seq<Cat>)
    requires cs != [] && forall c :: c in cs ==> WfCat(c)
    ensures WfAlt(AltOf(cs))
  {
    if |cs| > 1 {
      AltWf(cs[1..]);
    }
  }

  lemma BucketCatWf(k: string, v: seq<string>)
    requires v != [] && Plain(k) && forall x :: x in v ==> Plain(x)
    ensures WfCat(BucketCat(k, v))
  {
    if |v| == 1 {
      assert v[0] in v;
      LitThenWf(v[0] + "." + k, Nil);
    } else {
      forall c | c in LitCats(v) ensures WfCat(c) {
        var i :| 0 <= i < |v| && c == LitCats(v)[i];
        LitThenWf(v[i], Nil);
      }
      AltWf(LitCats(v));
      LitThenWf("." + k, Nil);
      assert WfCat(ValuesCat(k, v));
    }
  }

  lemma BucketsCatWf(order: seq<string>, m: Buckets)
    requires order != [] && NonEmptyBuckets(m) && PlainBuckets(m) && forall k :: k in order ==> k in m
    ensures WfCat(BucketsCat(order, m))
  {
    var cs := BucketCats(order, m);
    forall c | c in cs ensures WfCat(c) {
      var i :| 0 <= i < |cs| && c == cs[i];
      BucketCatWf(order[i], m[order[i]]);
    }
    assert cs[0] in cs;
    AltWf(cs);
  }

  lemma SingleWf(a: Alt)
    requires WfAlt(a)
    ensures WfCat(Single(a))
  {
  }

  lemma WwwWf()
    ensures WfAtom(WWW.atom)
  {
    LitThenWf("www.", Nil);
  }

  // ----- No empty alternatives -----

  /** No bucket lists an empty value beside others. */
  predicate NoEmptyChoice(m: Buckets) {
    forall k :: k in m ==> |m[k]| == 1 || "" !in m[k]
  }

  lemma {:induction false} LitThenStrict(w: string, c: Cat)
    ensures StrictCat(LitThen(w, c)) <==> StrictCat(c)
    ensures LitThen(w, c) == Nil <==> w == "" && c == Nil
  {
    if w != "" {
      LitThenStrict(w[1..], c);
    }
  }

  lemma {:induction false} AltStrict(cs: seq<Cat>)
    requires cs != []
    ensures StrictAlt(AltOf(cs)) <==> forall i :: 0 <= i < |cs| ==> cs[i] != Nil && StrictCat(cs[i])
  {
    if |cs| > 1 {
      AltStrict(cs[1..]);
      assert forall i :: 1 <= i < |cs| ==> cs[i] == cs[1..][i - 1];
    }
  }

  lemma BucketCatStrict(k: string, v: seq<string>)
    requires v != []
    ensures StrictCat(BucketCat(k, v)) <==> |v| == 1 || "" !in v
  {
    if |v| == 1 {
      LitThenStrict(v[0] + "." + k, Nil);
    } else {
      var cs := LitCats(v);
      forall i | 0 <= i < |v| ensures (cs[i] != Nil && StrictCat(cs[i])) <==> v[i] != "" {
        LitThenStrict(v[i], Nil);
      }
      AltStrict(cs);
      LitThenStrict("." + k, Nil);
      assert "" !in v <==> forall i :: 0 <= i < |v| ==> v[i] != "";
      assert StrictCat(ValuesCat(k, v)) <==> StrictAlt(AltOf(cs));
      SingleStrict(One(ValuesCat(k, v)));
    }
  }

  lemma BucketsCatStrict(order: seq<string>, m: Buckets)
    requires order != [] && NonEmptyBuckets(m) && IsOrder(order, m)
    ensures StrictCat(BucketsCat(order, m)) <==> NoEmptyChoice(m)
  {
    var cs := BucketCats(order, m);
    forall i | 0 <= i < |order|
      ensures (cs[i] != Nil && StrictCat(cs[i])) <==> |m[order[i]]| == 1 || "" !in m[order[i]]
    {
      BucketCatStrict(order[i], m[order[i]]);
    }
    AltStrict(cs);
    if |order| > 1 {
      JoinContains(BucketTexts(order, m), '|');
    }
    assert NoEmptyChoice(m) <==> forall i :: 0 <= i < |order| ==> |m[order[i]]| == 1 || "" !in m[order[i]];
  }

  lemma SingleStrict(a: Alt)
    ensures StrictCat(Single(a)) <==> StrictAlt(a)
  {
  }

  lemma WwwStrict(c: Cat)
    ensures StrictCat(Cons(WWW, c)) <==> StrictCat(c)
  {
    LitThenStrict("www.", Nil);
  }

  /** The emitted expression has no empty alternative if and only if no bucket lists an empty value beside others. */
  lemma CombinedAltStrict(o2: seq<string>, m2: Buckets, oN: seq<string>, mN: Buckets)
    requires o2 != [] || oN != []
    requires NonEmptyBuckets(m2) && IsOrder(o2, m2)
    requires NonEmptyBuckets(mN) && IsOrder(oN, mN)
    ensures StrictAlt(CombinedAlt(o2, m2, oN, mN)) <==> NoEmptyChoice(m2) && NoEmptyChoice(mN)
  {
    if o2 != [] {
      BucketsCatStrict(o2, m2);
      WwwStrict(BucketsCat(o2, m2));
      SingleStrict(One(Cons(WWW, BucketsCat(o2, m2))));
    }
    if oN != [] {
      BucketsCatStrict(oN, mN);
      SingleStrict(One(BucketsCat(oN, mN)));
      BucketsCatNonNil(oN, mN);
    }
    if o2 != [] && oN != [] {
      SingleStrict(Or(Single(One(Cons(WWW, BucketsCat(o2, m2)))), One(Single(One(BucketsCat(oN, mN))))));
    }
  }

  lemma BucketsCatNonNil(order: seq<string>, m: Buckets)
    requires order != [] && NonEmptyBuckets(m) && forall k :: k in order ==> k in m
    ensures BucketsCat(order, m) != Nil
  {
  }

  /** A scheme rule has no empty group if and only if no remainder is empty. */
  lemma SchemeAltStrict(scheme: string, vs: seq<string>)
    requires vs != []
    ensures StrictAlt(SchemeAlt(scheme, vs)) <==> "" !in vs
  {
    if |vs| == 1 {
      LitThenStrict(vs[0], Nil);
      SingleStrict(One(LitCat(vs[0])));
      LitThenStrict(scheme, Single(One(LitCat(vs[0]))));
    } else {
      var cs := seq(|vs|, i requires 0 <= i < |vs| => Single(One(LitCat(vs[i]))));
      forall i | 0 <= i < |vs| ensures StrictCat(cs[i]) <==> vs[i] != "" {
        LitThenStrict(vs[i], Nil);
        SingleStrict(One(LitCat(vs[i])));
      }
      AltStrict(cs);
      SingleStrict(AltOf(cs));
      LitThenStrict(scheme, Single(AltOf(cs)));
    }
  }

  // ----- Meaning of the trees -----

  lemma OrdinaryMeans(c: char, s: string)
    ensures InPiece(Ordinary(c), s) <==> s == [c]
  {
  }

  lemma {:induction false} LitThenMeans(w: string, c: Cat, s: string)
    ensures InCat(LitThen(w, c), s) <==> w <= s && InCat(c, s[|w|..])
  {
    if w == "" {
      assert s[0..] == s;
    } else {
      var rest := LitThen(w[1..], c);
      forall i | 0 <= i <= |s| ensures InPiece(Ordinary(w[0]), s[..i]) <==> i == 1 && s[0] == w[0] {
        OrdinaryMeans(w[0], s[..i]);
      }
      if s != "" && s[0] == w[0] {
        LitThenMeans(w[1..], c, s[1..]);
        assert w == [w[0]] + w[1..] && s == [s[0]] + s[1..];
        if w <= s {
          assert s[1..][|w| - 1..] == s[|w|..];
        }
      }
    }
  }

  lemma LitCatMeans(w: string, s: string)
    ensures InCat(LitCat(w), s) <==> s == w
  {
    LitThenMeans(w, Nil, s);
  }

  lemma SingleMeans(a: Alt, s: string)
    ensures InCat(Single(a), s) <==> InAlt(a, s)
  {
    InLast(Group(a), s);
  }

  lemma {:induction false} AltMeans(cs: seq<Cat>, s: string)
    requires cs != []
    ensures InAlt(AltOf(cs), s) <==> exists i :: 0 <= i < |cs| && InCat(cs[i], s)
  {
    if |cs| > 1 {
      AltMeans(cs[1..], s);
      if i :| 0 <= i < |cs| && InCat(cs[i], s) {
        if i > 0 {
          assert cs[1..][i - 1] == cs[i];
        }
      }
      if j :| 0 <= j < |cs[1..]| && InCat(cs[1..][j], s) {
        assert cs[j + 1] == cs[1..][j];
      }
    }
  }

  lemma LitAltMeans(v: seq<string>, s: string)
    requires v != []
    ensures InAlt(AltOf(LitCats(v)), s) <==> s in v
  {
    var cs := LitCats(v);
    AltMeans(cs, s);
    forall i | 0 <= i < |v| ensures InCat(cs[i], s) <==> s == v[i] {
      LitCatMeans(v[i], s);
    }
  }

  lemma InSplit(p: Piece, rest: Cat, s: string)
    ensures InCat(Cons(p, rest), s) <==> exists i :: 0 <= i <= |s| && InPiece(p, s[..i]) && InCat(rest, s[i..])
  {
  }

  lemma ValuesCatMeans(k: string, v: seq<string>, s: string)
    requires v != []
    ensures InCat(ValuesCat(k, v), s) <==> exists x :: x in v && s == x + "." + k
  {
    hide InCat, LitCat, AltOf;
    var group := Piece(Group(AltOf(LitCats(v))), false);
    InSplit(group, LitCat("." + k), s);
    if InCat(ValuesCat(k, v), s) {
      var i :| 0 <= i <= |s| && InPiece(group, s[..i]) && InCat(LitCat("." + k), s[i..]);
      assert InAtom(group.atom, s[..i]);
      LitAltMeans(v, s[..i]);
      LitCatMeans("." + k, s[i..]);
      assert s[..i] in v && s == s[..i] + "." + k;
    }
    if x :| x in v && s == x + "." + k {
      LitAltMeans(v, x);
      LitCatMeans("." + k, "." + k);
      assert InPiece(group, x);
      InCons(group, LitCat("." + k), x, "." + k);
      assert s == x + ("." + k);
    }
  }

  lemma BucketCatMeans(k: string, v: seq<string>, s: string)
    requires v != []
    ensures InCat(BucketCat(k, v), s) <==> exists x :: x in v && s == x + "." + k
  {
    if |v| == 1 {
      SingleMeans(One(LitCat(v[0] + "." + k)), s);
      LitCatMeans(v[0] + "." + k, s);
      assert v[0] in v;
    } else {
      SingleMeans(One(ValuesCat(k, v)), s);
      ValuesCatMeans(k, v, s);
    }
  }

  lemma BucketsCatMeans(order: seq<string>, m: Buckets, s: string)
    requires order != [] && NonEmptyBuckets(m) && IsOrder(order, m)
    ensures InCat(BucketsCat(order, m), s) <==> InBuckets(m, s)
  {
    var cs := BucketCats(order, m);
    forall i | 0 <= i < |cs|
      ensures InCat(cs[i], s) <==> exists v :: v in m[order[i]] && s == v + "." + order[i]
    {
      BucketCatMeans(order[i], m[order[i]], s);
    }
    var raw := BucketTexts(order, m);
    if '|' in Join(raw, "|") {
      SingleMeans(AltOf(cs), s);
      AltMeans(cs, s);
    } else {
      if |raw| > 1 {
        JoinContains(raw, '|');
      }
      assert BucketsCat(order, m) == cs[0];
    }
    if k, v :| k in m && v in m[k] && s == v + "." + k {
      var i :| 0 <= i < |order| && order[i] == k;
      assert InCat(cs[i], s);
      assert i == 0 || |order| > 1;
    }
    if i :| 0 <= i < |cs| && InCat(cs[i], s) {
      assert order[i] in m;
    }
  }

  lemma WwwPiece(t: string)
    ensures InPiece(WWW, t) <==> t == "" || t == "www."
  {
    LitCatMeans("www.", t);
    assert InAlt(One(LitCat("www.")), t) <==> InCat(LitCat("www."), t);
  }

  lemma WwwForward(c: Cat, s: string)
    requires InCat(Cons(WWW, c), s)
    ensures InCat(c, s) || ("www." <= s && InCat(c, s[4..]))
  {
    hide InPiece;
    var i :| 0 <= i <= |s| && InPiece(WWW, s[..i]) && InCat(c, s[i..]);
    WwwPiece(s[..i]);
    assert i == 0 ==> s[i..] == s;
  }

  lemma WwwMeans(c: Cat, s: string)
    ensures InCat(Cons(WWW, c), s) <==> InCat(c, s) || ("www." <= s && InCat(c, s[4..]))
  {
    hide InPiece, InCat;
    if InCat(Cons(WWW, c), s) {
      WwwForward(c, s);
    }
    if InCat(c, s) {
      WwwPiece("");
      InCons(WWW, c, "", s);
      assert "" + s == s;
    }
    if "www." <= s && InCat(c, s[4..]) {
      WwwPiece("www.");
      InCons(WWW, c, "www.", s[4..]);
      assert "www." + s[4..] == s;
    }
  }

  lemma CombinedAltMeans(o2: seq<string>, m2: Buckets, oN: seq<string>, mN: Buckets, s: string)
    requires o2 != [] || oN != []
    requires NonEmptyBuckets(m2) && IsOrder(o2, m2) && NonEmptyBuckets(mN) && IsOrder(oN, mN)
    ensures InAlt(CombinedAlt(o2, m2, oN, mN), s) <==>
            InBuckets(m2, s) || ("www." <= s && InBuckets(m2, s[4..])) || InBuckets(mN, s)
  {
    if o2 != [] {
      var two := Cons(WWW, BucketsCat(o2, m2));
      WwwMeans(BucketsCat(o2, m2), s);
      BucketsCatMeans(o2, m2, s);
      if "www." <= s {
        BucketsCatMeans(o2, m2, s[4..]);
      }
      SingleMeans(One(two), s);
    }
    if oN != [] {
      BucketsCatMeans(oN, mN, s);
      SingleMeans(One(BucketsCat(oN, mN)), s);
    }
    if o2 != [] && oN != [] {
      SingleMeans(CombinedAlt(o2, m2, oN, mN).cat.piece.atom.alt, s);
    }
  }

  lemma SchemeAltMeans(scheme: string, vs: seq<string>, s: string)
    requires vs != []
    ensures InAlt(SchemeAlt(scheme, vs), s) <==> exists v :: v in vs && s == scheme + v
  {
    var group := if |vs| == 1 then One(LitCat(vs[0]))
                 else AltOf(seq(|vs|, i requires 0 <= i < |vs| => Single(One(LitCat(vs[i])))));
    LitThenMeans(scheme, Single(group), s);
    if scheme <= s {
      var t := s[|scheme|..];
      assert s == scheme + t;
      SingleMeans(group, t);
      if |vs| == 1 {
        LitCatMeans(vs[0], t);
        assert t == vs[0] <==> t in vs;
      } else {
        var cs := seq(|vs|, i requires 0 <= i < |vs| => Single(One(LitCat(vs[i]))));
        AltMeans(cs, t);
        forall i | 0 <= i < |vs| ensures InCat(cs[i], t) <==> t == vs[i] {
          LitCatMeans(vs[i], t);
          SingleMeans(One(LitCat(vs[i])), t);
        }
      }
      assert forall v :: s == scheme + v ==> v == t;
    }
  }
}
