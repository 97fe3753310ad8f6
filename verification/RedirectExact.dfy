/** Exactly which texts survive the compiler's escaping. Only dots are escaped, so a row of one entry redirects exactly
    what the entry lists if and only if the entry has no other special character (and gets a rule at all). */
module RedirectExact {
  import opened Text
  import opened Options
  import opened Regex
  import opened RegexCounts
  import opened RedirectEntries
  import opened RedirectPatterns
  import opened RedirectLaws

  // ----- Counting -----

  /** Escaping adds one backslash for each dot. */
  lemma {:induction false} EscapeCounts(s: string)
    ensures |EscapeDots(s)| == |s| + multiset(s)['.']
    ensures forall c :: multiset(EscapeDots(s))[c] == multiset(s)[c] + if c == '\\' then multiset(s)['.'] else 0
  {
    if s != "" {
      EscapeCounts(s[1..]);
      EscapeCat([s[0]], s[1..]);
      EscapeOne(s[0]);
      assert s == [s[0]] + s[1..];
      assert multiset("\\.") == multiset{'\\', '.'};
    }
  }

  /** If a tree for the escaped text has no wildcard, and the text is longer than the leaves by what `g` groups and `o`
      question marks take, then the text's parentheses and question marks are just those, and it has no other special
      character but dots and the backslashes that escape some of them. */
  lemma ExactCounts(raw: string, a: Alt, g: nat, o: nat)
    requires WfAlt(a) && PrintAlt(a) == EscapeDots(raw)
    requires '|' !in raw && AltTally(a).anys == 0 && |raw| == AltTally(a).leaves + 2 * g + o
    requires multiset(raw)['('] >= g && multiset(raw)[')'] >= g && multiset(raw)['?'] >= o
    ensures multiset(raw)['('] == g && multiset(raw)[')'] == g && multiset(raw)['?'] == o
    ensures forall c :: IsSpecial(c) && c !in "(.)?\\" ==> c !in raw
    ensures var e := AltTally(a).escaped; e['('] == e[')'] && multiset(raw)['\\'] == e['('] + e[')'] + e['?']
  {
    hide PrintAlt, EscapeDots;
    AltTells(a);
    EscapeCounts(raw);
    var m := multiset(raw);
    forall c | IsSpecial(c) ensures AltTally(a).Written(c) == m[c] + if c == '\\' then m['.'] else 0 {
      assert multiset(EscapeDots(raw))[c] == AltTally(a).Written(c);
    }
    assert m['|'] == 0;
    TallyCounts(AltTally(a), m, |raw|, g, o);
    assert forall c :: c in raw <==> m[c] > 0;
  }

  lemma TallyCounts(t: Tally, m: multiset<char>, n: nat, g: nat, o: nat)
    requires forall c :: IsSpecial(c) ==> t.Written(c) == m[c] + if c == '\\' then m['.'] else 0
    requires t.Length() == n + m['.'] && n == t.leaves + 2 * g + o && t.anys == 0 && m['|'] == 0
    requires m['('] >= g && m[')'] >= g && m['?'] >= o
    ensures m['('] == g && m[')'] == g && m['?'] == o
    ensures forall c :: IsSpecial(c) && c !in "(.)?\\" ==> m[c] == 0
    ensures t.escaped['('] == t.escaped[')'] && m['\\'] == t.escaped['('] + t.escaped[')'] + t.escaped['?']
  {
    var e := t.escaped;
    FourWritten(t, m);
    var rest := e['.' := 0]['(' := 0][')' := 0]['?' := 0];
    assert |e| == e['.'] + e['('] + e[')'] + e['?'] + |rest|;
    assert rest == multiset{};
    forall c | IsSpecial(c) && c !in "(.)?\\" ensures m[c] == 0 {
      assert rest[c] == e[c];
    }
    assert rest['\\'] == e['\\'];
  }

  lemma FourWritten(t: Tally, m: multiset<char>)
    requires forall c :: IsSpecial(c) ==> t.Written(c) == m[c] + if c == '\\' then m['.'] else 0
    ensures m['.'] == t.escaped['.'] + t.anys && m['('] == t.escaped['('] + t.groups
    ensures m[')'] == t.escaped[')'] + t.groups && m['?'] == t.escaped['?'] + t.opts
    ensures m['|'] == t.escaped['|'] + t.ors && m['\\'] + m['.'] == t.escaped['\\'] + |t.escaped|
  {
    assert IsSpecial('.') && IsSpecial('(') && IsSpecial(')') && IsSpecial('?') && IsSpecial('|') && IsSpecial('\\');
  }

  // ----- One text among fixed ones -----

  lemma EscapeKeeps(s: string, c: char)
    requires c !in s && c != '\\'
    ensures c !in EscapeDots(s) && Unescaped(EscapeDots(s), c)
  {
    EscapeCounts(s);
    assert multiset(EscapeDots(s))[c] == 0;
  }

  lemma UnescapedThen(s: string, r: string, c: char)
    requires Unescaped(s, c) && c !in r
    ensures Unescaped(s + r, c)
  {
  }

  /** A text between `pre` and `post`, whose parentheses and question marks are those of `g` groups and `o` optional
      parts: if the expression matches just `x`, and at most a shorter `y`, and the text has no more to say than that,
      then it has no special character but dots. */
  lemma OnlyPlain(pre: string, v: string, post: string, a: Alt, x: string, y: string, g: nat, o: nat)
    requires WfAlt(a) && PrintAlt(a) == EscapeDots(pre + v + post) && '|' !in pre + v + post
    requires InAlt(a, x) && (y == x || |y| < |x|) && forall s :: InAlt(a, s) ==> s == x || s == y
    requires |pre + v + post| == |x| + 2 * g + o
    requires multiset(pre + post)['('] == g && multiset(pre + post)[')'] == g && multiset(pre + post)['?'] == o
    requires '(' !in post && '?' !in post && Unescaped(EscapeDots(pre), '(') && Unescaped(EscapeDots(pre), '?')
    ensures Plain(v)
  {
    hide EscapeDots, InAlt, PrintAlt, WfAlt, AltTally;
    var raw := pre + v + post;
    NoBars(a, raw);
    ExactLeaves(a, x, y);
    assert multiset(raw) == multiset(pre + post) + multiset(v);
    ExactCounts(raw, a, g, o);
    forall c | c == '(' || c == '?' ensures AltTally(a).escaped[c] == 0 {
      assert multiset(v)[c] == 0;
      EscapeKeeps(v + post, c);
      UnescapedThen(EscapeDots(pre), EscapeDots(v + post), c);
      EscapeCat(pre, v + post);
      assert pre + (v + post) == raw;
      AltUnescaped(a, c);
    }
    forall c | c in v && c != '.' ensures !IsSpecial(c) {
      assert multiset(v)[c] > 0;
    }
  }

  lemma NoBars(a: Alt, raw: string)
    requires WfAlt(a) && PrintAlt(a) == EscapeDots(raw) && '|' !in raw
    ensures AltTally(a).ors == 0
  {
    AltTells(a);
    EscapeKeeps(raw, '|');
    assert multiset(EscapeDots(raw))['|'] == 0;
  }

  /** The expression has a reading, which matches `x` and `y` and nothing else. */
  ghost predicate AcceptsJust(text: string, x: string, y: string) {
    Parse(text).Some? && forall s :: Accepts(text, s) <==> s == x || s == y
  }

  lemma JustPlain(pre: string, v: string, post: string, x: string, y: string, g: nat, o: nat)
    requires AcceptsJust(EscapeDots(pre + v + post), x, y) && '|' !in pre + v + post
    requires y == x || |y| < |x|
    requires |pre + v + post| == |x| + 2 * g + o
    requires multiset(pre + post)['('] == g && multiset(pre + post)[')'] == g && multiset(pre + post)['?'] == o
    requires '(' !in post && '?' !in post && Unescaped(EscapeDots(pre), '(') && Unescaped(EscapeDots(pre), '?')
    ensures Plain(v)
  {
    hide EscapeDots, Parse, Plain, InAlt, Unescaped;
    var text := EscapeDots(pre + v + post);
    var a := Parse(text).value;
    ParseExactly(text, a);
    assert forall s :: InAlt(a, s) <==> Accepts(text, s);
    OnlyPlain(pre, v, post, a, x, y, g, o);
  }

  // ----- Scheme rules -----

  /** The rule of a single remainder accepts exactly the scheme and that remainder if and only if the remainder has no
      special character but dots. */
  lemma SchemeExact(scheme: string, v: string)
    requires Plain(scheme) && '|' !in v
    ensures AcceptsJust(SchemeText(scheme, [v]), scheme + v, scheme + v) <==> Plain(v)
  {
    var text := SchemeText(scheme, [v]);
    if Plain(v) {
      SchemeLaw(scheme, [v]);
      forall s ensures Accepts(text, s) <==> s == scheme + v {
        assert HasRest([v], scheme, s) <==> s == scheme + v;
      }
    }
    if AcceptsJust(text, scheme + v, scheme + v) {
      SchemePre(scheme);
      assert scheme + "(" + v + ")" == (scheme + "(") + v + ")";
      assert HttpBody([v]) == v;
      JustPlain(scheme + "(", v, ")", scheme + v, scheme + v, 1, 0);
    }
  }

  lemma SchemePre(scheme: string)
    requires Plain(scheme)
    ensures multiset(scheme + "(" + ")")['('] == 1 && multiset(scheme + "(" + ")")[')'] == 1
    ensures multiset(scheme + "(" + ")")['?'] == 0 && '|' !in scheme
    ensures Unescaped(EscapeDots(scheme + "("), '(') && Unescaped(EscapeDots(scheme + "("), '?')
  {
    PlainLacks(scheme);
    assert multiset(scheme + "(" + ")") == multiset(scheme) + multiset{'(', ')'};
    OpenUnescaped(scheme, "(");
    EscapeKeeps(scheme + "(", '?');
  }

  lemma PlainLacks(w: string)
    requires Plain(w)
    ensures '(' !in w && ')' !in w && '?' !in w && '|' !in w && '\\' !in w
  {
    assert IsSpecial('(') && IsSpecial(')') && IsSpecial('?') && IsSpecial('|') && IsSpecial('\\');
  }

  lemma OpenUnescaped(scheme: string, open: string)
    requires Plain(scheme) && open == "("
    ensures Unescaped(EscapeDots(scheme + open), '(')
  {
    hide Plain;
    PlainLacks(scheme);
    EscapeKeeps(scheme, '(');
    EscapeCat(scheme, open);
    EscapeOne('(');
    EscapeEnds(scheme);
    assert scheme != "" ==> scheme[|scheme| - 1] in scheme;
  }

  /** The last character stays last. */
  lemma EscapeEnds(s: string)
    ensures s != "" ==> EscapeDots(s) != "" && EscapeDots(s)[|EscapeDots(s)| - 1] == s[|s| - 1]
  {
    if s != "" {
      var n := |s| - 1;
      EscapeCat(s[..n], [s[n]]);
      EscapeOne(s[n]);
      assert s == s[..n] + [s[n]];
    }
  }

  // ----- Rules of one domain -----

  /** The pattern of a single two-label name accepts exactly the name and its "www." form if and only if the name has no
      special character but dots. */
  lemma TwoExact(e: string)
    requires '|' !in e
    ensures AcceptsJust(EscapeDots("(www.)?(" + e + ")"), "www." + e, e) <==> Plain(e)
  {
    var text := EscapeDots("(www.)?(" + e + ")");
    if Plain(e) {
      TwoPlain(e);
    }
    if AcceptsJust(text, "www." + e, e) {
      TwoOnly("(www.)?(", e, ")", "www." + e);
    }
  }

  lemma TwoOnly(pre: string, e: string, post: string, x: string)
    requires pre == "(www.)?(" && post == ")" && x == "www." + e && '|' !in e
    requires AcceptsJust(EscapeDots(pre + e + post), x, e)
    ensures Plain(e)
  {
    hide EscapeDots, AcceptsJust, Plain, Unescaped;
    assert '|' !in pre && |pre| == 8;
    WwwPre(pre, post);
    JustPlain(pre, e, post, x, e, 2, 1);
  }

  lemma TwoPlain(e: string)
    requires Plain(e)
    ensures AcceptsJust(EscapeDots("(www.)?(" + e + ")"), "www." + e, e)
  {
    hide Parse, InCat, EscapeDots, LitCat, WWW;
    var group := Single(One(LitCat(e)));
    var text := EscapeDots("(www.)?(" + e + ")");
    GroupTree(e);
    EscapeCat("(www.)?", "(" + e + ")");
    assert "(www.)?" + ("(" + e + ")") == "(www.)?(" + e + ")";
    WwwText();
    WwwWf();
    ParseExactly(text, One(Cons(WWW, group)));
    forall s ensures Accepts(text, s) <==> s == "www." + e || s == e {
      assert Accepts(text, s) <==> InCat(Cons(WWW, group), s);
      WwwMeans(group, s);
      GroupMeans(e, s);
      if "www." <= s {
        GroupMeans(e, s[4..]);
        assert s == "www." + s[4..];
      }
    }
  }

  lemma GroupTree(e: string)
    requires Plain(e)
    ensures PrintCat(Single(One(LitCat(e)))) == EscapeDots("(" + e + ")") && WfCat(Single(One(LitCat(e))))
  {
    SingleText(One(LitCat(e)));
    LitCatText(e);
    Parens(e);
    LitThenWf(e, Nil);
    SingleWf(One(LitCat(e)));
  }

  lemma GroupMeans(e: string, s: string)
    ensures InCat(Single(One(LitCat(e))), s) <==> s == e
  {
    SingleMeans(One(LitCat(e)), s);
    LitCatMeans(e, s);
  }

  /** What is written around a name. */
  lemma WwwPre(pre: string, post: string)
    requires pre == "(www.)?(" && post == ")"
    ensures multiset(pre + post)['('] == 2 && multiset(pre + post)[')'] == 2 && multiset(pre + post)['?'] == 1
    ensures Unescaped(EscapeDots(pre), '(') && Unescaped(EscapeDots(pre), '?')
  {
    var opt := "(www.)?";
    assert pre == opt + "(";
    OptionalPre(opt, "www.");
    OpenAfter(opt, pre, post);
  }

  lemma OpenAfter(opt: string, pre: string, post: string)
    requires opt != "" && pre == opt + ['('] && post == [')'] && opt[|opt| - 1] != '\\'
    requires Unescaped(EscapeDots(opt), '(') && Unescaped(EscapeDots(opt), '?')
    ensures forall c :: multiset(pre + post)[c] == multiset(opt)[c] + if c == '(' || c == ')' then 1 else 0
    ensures Unescaped(EscapeDots(pre), '(') && Unescaped(EscapeDots(pre), '?')
  {
    hide EscapeDots;
    EscapeCat(opt, ['(']);
    EscapeOne('(');
    EscapeEnds(opt);
    assert EscapeDots(pre) == EscapeDots(opt) + ['('];
  }

  /** An optional group of characters without special meaning. */
  lemma OptionalPre(pre: string, w: string)
    requires pre == ['('] + w + [')', '?'] && w != "" && Plain(w)
    ensures multiset(pre)['('] == 1 && multiset(pre)[')'] == 1 && multiset(pre)['?'] == 1
    ensures Unescaped(EscapeDots(pre), '(') && Unescaped(EscapeDots(pre), '?')
  {
    hide Plain, EscapeDots, Unescaped;
    PlainLacks(w);
    assert multiset(pre) == multiset{'('} + multiset(w) + multiset{')', '?'};
    OptionalText(w);
    EscapeKeeps(w, '(');
    EscapeKeeps(w, '?');
    OptionalUnescaped(EscapeDots(w));
  }

  lemma OptionalText(w: string)
    ensures EscapeDots(['('] + w + [')', '?']) == ['('] + EscapeDots(w) + [')', '?']
  {
    hide EscapeDots;
    EscapeCat(['('] + w, [')', '?']);
    EscapeCat(['('], w);
    EscapeCat([')'], ['?']);
    assert [')'] + ['?'] == [')', '?'];
    EscapeOne('(');
    EscapeOne(')');
    EscapeOne('?');
  }

  lemma OptionalUnescaped(e: string)
    requires '(' !in e && '?' !in e
    ensures Unescaped(['('] + e + [')', '?'], '(') && Unescaped(['('] + e + [')', '?'], '?')
  {
  }

  /** The pattern of a single longer name accepts exactly the name if and only if it has no special character but
      dots. */
  lemma LongExact(e: string)
    requires '|' !in e
    ensures AcceptsJust(EscapeDots("(" + e + ")"), e, e) <==> Plain(e)
  {
    var text := EscapeDots("(" + e + ")");
    if Plain(e) {
      GroupTree(e);
      ParseExactly(text, One(Single(One(LitCat(e)))));
      forall s ensures Accepts(text, s) <==> s == e {
        GroupMeans(e, s);
      }
    }
    if AcceptsJust(text, e, e) {
      OpenUnescaped("", "(");
      assert "" + "(" == "(" && "(" + ")" == "()";
      EscapeKeeps("(", '?');
      JustPlain("(", e, ")", e, e, 1, 0);
    }
  }

  // ----- Rows of one entry -----

  /** The pattern a row of one entry is given, empty when there is no rule. */
  function OnePattern(e: string): string {
    KindPattern(Classify(e))
  }

  function KindPattern(k: Kind): string {
    match k
    case Http(rest) => HttpPattern([rest])
    case Two(tld, name) => EscapeDots("(www.)?(" + (name + "." + tld) + ")")
    case Long(tld, prefix) => EscapeDots("(" + (prefix + "." + tld) + ")")
    case _ => ""
  }

  lemma OneOrder(order: seq<string>, m: Buckets, k: string)
    requires IsOrder(order, m) && m.Keys <= {k}
    ensures order == if m == map[] then [] else [k]
  {
    Singleton(order, k);
    assert forall x :: x in order ==> x in m.Keys;
    if m != map[] {
      assert k in m && k in order;
    }
  }

  lemma Singleton(order: seq<string>, k: string)
    requires forall i, j :: 0 <= i < j < |order| ==> order[i] != order[j]
    ensures order == [] || order[0] in order
    ensures (forall x :: x in order ==> x == k) ==> order == [] || order == [k]
  {
    if |order| > 1 {
      assert order[0] in order && order[1] in order && order[0] != order[1];
    } else if |order| == 1 {
      assert order[0] in order;
    }
  }

  lemma OneTwoText(k: string, name: string)
    requires '|' !in k && '|' !in name
    ensures TwoText([k], map[k := [name]]) == EscapeDots("(www.)?(" + (name + "." + k) + ")")
  {
    OneBody(k, name);
    var body := "(" + (name + "." + k) + ")";
    assert "(www.)?" + body == "(www.)?(" + (name + "." + k) + ")";
  }

  lemma OneLongText(k: string, prefix: string)
    requires '|' !in k && '|' !in prefix
    ensures LongText([k], map[k := [prefix]]) == EscapeDots("(" + (prefix + "." + k) + ")")
  {
    OneBody(k, prefix);
  }

  lemma OneBody(k: string, v: string)
    requires '|' !in k && '|' !in v
    ensures Join(BucketTexts([k], map[k := [v]]), "|") == "(" + (v + "." + k) + ")"
    ensures '|' !in Join(BucketTexts([k], map[k := [v]]), "|")
  {
    GroupText(k, [v]);
    assert BucketTexts([k], map[k := [v]]) == [BucketText(k, [v])];
  }

  lemma OneText(k: Kind, st: Sorted, o2: seq<string>, oN: seq<string>)
    requires st == Sorted([], [], map[], map[]).Add(k) && (k != Dropped ==> '|' !in Rejoin(k))
    requires IsOrder(o2, st.two) && IsOrder(oN, st.long)
    ensures HttpPattern(st.http) == if k.Http? then KindPattern(k) else ""
    ensures TwoText(o2, st.two) == if k.Two? then KindPattern(k) else ""
    ensures LongText(oN, st.long) == if k.Long? then KindPattern(k) else ""
  {
    hide HttpPattern, EscapeDots, BucketText;
    var key := if k.Two? || k.Long? then k.tld else "";
    OneOrder(o2, st.two, key);
    OneOrder(oN, st.long, key);
    NoHttp();
    match k
    case Http(rest) => assert st.http == [rest];
    case Two(tld, name) =>
      assert [] + [name] == [name];
      OneTwoText(tld, name);
    case Long(tld, prefix) =>
      assert [] + [prefix] == [prefix];
      OneLongText(tld, prefix);
    case _ =>
  }

  /** A row of one entry has the one rule of its pattern. */
  lemma OneRule(row: Row, o2: seq<string>, oN: seq<string>)
    requires '|' !in row.redirectUrl && Entries(row) == [row.redirectUrl]
    requires IsOrder(o2, SortEntries(Entries(row)).two) && IsOrder(oN, SortEntries(Entries(row)).long)
    ensures RowRedirects(row, o2, oN) == Rule(OnePattern(row.redirectUrl), row.url)
  {
    hide HttpPattern, TwoText, LongText, Classify, KindPattern, SortEntries;
    var e := row.redirectUrl;
    EntryAlone(e);
    ClassifyKeeps(e);
    OneText(Classify(e), SortEntries([e]), o2, oN);
    NoPattern(Classify(e));
  }

  lemma NoPattern(k: Kind)
    ensures !k.Http? && !k.Two? && !k.Long? ==> KindPattern(k) == ""
  {
  }

  lemma NoHttp()
    ensures HttpPattern([]) == ""
  {
  }

  /** An entry whose rule redirects what it lists: it has no special character but dots, and it gets a rule. */
  predicate Survives(e: string) {
    PlainEntries([e]) && !HasPrefix(e, "https://") && e != "http://"
  }

  ghost predicate PatternRight(e: string) {
    forall s :: OnePattern(e) != "" && Accepts(OnePattern(e), s) <==> Listed(e, s)
  }

  lemma PatternExact(e: string)
    requires '|' !in e
    ensures PatternRight(e) <==> Survives(e)
  {
    hide PatternRight, Survives;
    match Classify(e)
    case Http(rest) => HttpExact(e, rest);
    case Https(rest) => HttpsNever(e);
    case Two(tld, name) => TwoNameExact(e, tld, name);
    case Long(tld, prefix) => LongNameExact(e, tld, prefix);
    case Dropped => DroppedRight(e);
  }

  lemma HttpExact(e: string, rest: string)
    requires '|' !in e && Classify(e) == Http(rest)
    ensures PatternRight(e) <==> Survives(e)
  {
    hide HttpPattern, Accepts, Plain, SchemeText, HasScheme;
    ClassifyKeeps(e);
    KindListed(e, e);
    assert Listed(e, e);
    HttpPatternEmpty([rest]);
    assert rest == "" <==> e == "http://";
    assert [e][0] == e;
    HttpOnly(e);
    assert PlainEntries([e]) <==> Plain(rest);
    if rest != "" {
      SchemeExact("http://", rest) by { PlainHttp(); }
      var text := SchemeText("http://", [rest]);
      assert OnePattern(e) == text by { HttpText(rest); }
      forall s ensures Listed(e, s) <==> s == e {
        KindListed(e, s);
      }
      if PatternRight(e) {
        assert Accepts(text, e);
        assert Parse(text).Some? by { AcceptsParses(text, e); }
      }
    }
  }

  lemma AcceptsParses(text: string, s: string)
    requires Accepts(text, s)
    ensures Parse(text).Some?
  {
  }

  lemma PlainHttp()
    ensures Plain("http://")
  {
  }

  lemma HttpText(rest: string)
    requires rest != ""
    ensures HttpPattern([rest]) == SchemeText("http://", [rest])
  {
    assert HttpBody([rest]) == rest;
  }

  lemma HttpOnly(e: string)
    ensures HasPrefix(e, "http://") ==> !HasPrefix(e, "https://")
  {
    assert HasPrefix(e, "http://") ==> e[4] == "http://"[4];
    assert HasPrefix(e, "https://") ==> e[4] == "https://"[4];
  }

  lemma HttpsNever(e: string)
    requires Classify(e).Https?
    ensures !PatternRight(e) && !Survives(e)
  {
    KindListed(e, e);
    ClassifyKeeps(e);
    assert Listed(e, e) && OnePattern(e) == "";
  }

  lemma TwoNameExact(e: string, tld: string, name: string)
    requires '|' !in e && Classify(e) == Two(tld, name)
    ensures PatternRight(e) <==> Survives(e)
  {
    hide EscapeDots, Accepts, Plain, Listed, Classify;
    var x := name + "." + tld;
    var text := EscapeDots("(www.)?(" + x + ")");
    NameSurvives(e, tld, name);
    assert '|' !in x by { ClassifyKeeps(e); }
    TwoExact(x);
    forall s ensures Listed(e, s) <==> s == "www." + x || s == x {
      KindListed(e, s);
    }
    assert text != "" by { EscapeEnds("(www.)?(" + x + ")"); }
    if PatternRight(e) {
      assert Listed(e, x);
      AcceptsParses(text, x);
    }
  }

  lemma LongNameExact(e: string, tld: string, prefix: string)
    requires '|' !in e && Classify(e) == Long(tld, prefix)
    ensures PatternRight(e) <==> Survives(e)
  {
    hide EscapeDots, Accepts, Plain, Listed, Classify;
    var x := prefix + "." + tld;
    var text := EscapeDots("(" + x + ")");
    NameSurvives(e, tld, prefix);
    assert '|' !in x by { ClassifyKeeps(e); }
    LongExact(x);
    forall s ensures Listed(e, s) <==> s == x {
      KindListed(e, s);
    }
    assert text != "" by { EscapeEnds("(" + x + ")"); }
    if PatternRight(e) {
      assert Listed(e, x);
      AcceptsParses(text, x);
    }
  }

  lemma NameSurvives(e: string, tld: string, name: string)
    requires Classify(e) == Two(tld, name) || Classify(e) == Long(tld, name)
    ensures Survives(e) <==> Plain(name + "." + tld)
  {
    hide Plain;
    assert [e][0] == e;
    PlainParts(tld, name);
    Bucketed(e);
  }

  lemma PlainParts(tld: string, name: string)
    ensures Plain(name + "." + tld) <==> Plain(name) && Plain(tld)
  {
    var x := name + "." + tld;
    assert forall c :: c in x <==> c in name || c == '.' || c in tld;
  }

  lemma DroppedRight(e: string)
    requires Classify(e).Dropped?
    ensures PatternRight(e) && Survives(e)
  {
    ClassifyKeeps(e);
    forall s ensures !Listed(e, s) {
      KindListed(e, s);
    }
  }

  /** The rules redirect exactly the strings that the one entry of the row lists. */
  ghost predicate RowRight(row: Row, rules: seq<string>) {
    forall s :: Redirects(rules, row.url, s) <==> Listed(row.redirectUrl, s)
  }

  /** A row of one entry redirects exactly what the entry lists, if and only if the entry has no special character but
      dots and gets a rule: it is not an "https://" entry and not a bare "http://". */
  lemma RowExact(row: Row, o2: seq<string>, oN: seq<string>)
    requires '|' !in row.redirectUrl
    requires IsOrder(o2, SortEntries(Entries(row)).two) && IsOrder(oN, SortEntries(Entries(row)).long)
    ensures Entries(row) == [row.redirectUrl]
    ensures RowRight(row, RowRedirects(row, o2, oN)) <==> Survives(row.redirectUrl)
  {
    hide Listed, Redirects, Survives, OnePattern, Accepts;
    var e := row.redirectUrl;
    EntryAlone(e);
    OneRule(row, o2, oN);
    PatternExact(e);
    forall s ensures Redirects(RowRedirects(row, o2, oN), row.url, s) <==>
                     OnePattern(e) != "" && Accepts(OnePattern(e), s)
    {
      RuleMeans(OnePattern(e), row.url, s);
    }
  }
}
