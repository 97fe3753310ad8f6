/** Compiler correctness: the patterns of a row, read as regular expressions, accept exactly what its entries list. */
module RedirectLaws {
  import opened Text
  import opened Options
  import opened Regex
  import opened RedirectEntries
  import opened RedirectPatterns

  // ----- The laws -----

  predicate PlainEntries(es: seq<string>) {
    forall e :: e in es ==> (match Classify(e)
                             case Http(rest) => Plain(rest)
                             case Two(tld, name) => Plain(tld) && Plain(name)
                             case Long(tld, prefix) => Plain(tld) && Plain(prefix)
                             case _ => true)
  }

  lemma PlainSorted(es: seq<string>)
    requires PlainEntries(es)
    ensures PlainBuckets(SortEntries(es).two) && PlainBuckets(SortEntries(es).long)
    ensures forall v :: v in SortEntries(es).http ==> Plain(v)
  {
    var st := SortEntries(es);
    SortNonEmpty(es);
    forall k | k in st.two ensures Plain(k) && forall v :: v in st.two[k] ==> Plain(v) {
      forall v | v in st.two[k] ensures Plain(k) && Plain(v) {
        HeldListed(es, Two(k, v));
      }
      assert st.two[k][0] in st.two[k];
    }
    forall k | k in st.long ensures Plain(k) && forall v :: v in st.long[k] ==> Plain(v) {
      forall v | v in st.long[k] ensures Plain(k) && Plain(v) {
        HeldListed(es, Long(k, v));
      }
      assert st.long[k][0] in st.long[k];
    }
    forall v | v in st.http ensures Plain(v) {
      HeldListed(es, Http(v));
    }
  }

  /** Compiler correctness, for every iteration order of the two maps: the combined text has one reading as an
      expression, and that reading matches exactly the strings the kept schemeless entries stand for. */
  lemma CombinedLaw(es: seq<string>, o2: seq<string>, oN: seq<string>)
    requires PlainEntries(es)
    requires IsOrder(o2, SortEntries(es).two) && IsOrder(oN, SortEntries(es).long)
    ensures var text := CombinedText(TwoText(o2, SortEntries(es).two), LongText(oN, SortEntries(es).long));
            && (text == "" <==> forall e :: e in es ==> HasScheme(e) || '.' !in e)
            && (text != "" ==>
                  && Parse(text).Some?
                  && forall s :: Accepts(text, s) <==> exists e :: e in es && !HasScheme(e) && Listed(e, s))
  {
    var st := SortEntries(es);
    EmptyOrders(es, o2, oN);
    if o2 != [] || oN != [] {
      CombinedParses(es, o2, oN);
      forall s
        ensures Accepts(CombinedText(TwoText(o2, st.two), LongText(oN, st.long)), s) <==>
                exists e :: e in es && !HasScheme(e) && Listed(e, s)
      {
        CombinedAltMeans(o2, st.two, oN, st.long, s);
        ListedBuckets(es, s);
      }
    }
  }

  /** The one reading of the combined text. */
  lemma CombinedParses(es: seq<string>, o2: seq<string>, oN: seq<string>)
    requires PlainEntries(es)
    requires IsOrder(o2, SortEntries(es).two) && IsOrder(oN, SortEntries(es).long)
    requires o2 != [] || oN != []
    ensures NonEmptyBuckets(SortEntries(es).two) && NonEmptyBuckets(SortEntries(es).long)
    ensures var st := SortEntries(es);
            var text := CombinedText(TwoText(o2, st.two), LongText(oN, st.long));
            text != "" && Parse(text) == Some(CombinedAlt(o2, st.two, oN, st.long))
  {
    var st := SortEntries(es);
    SortNonEmpty(es);
    PlainSorted(es);
    CombinedAltText(o2, st.two, oN, st.long);
    CombinedAltWf(o2, st.two, oN, st.long);
    ParseExactly(PrintAlt(CombinedAlt(o2, st.two, oN, st.long)), CombinedAlt(o2, st.two, oN, st.long));
  }

  // ----- Where the standard itself defines the meaning -----

  /** No schemeless entry with a dot has an empty label. */
  predicate NonEmptyLabels(es: seq<string>) {
    forall e :: e in es && !HasScheme(e) && '.' in e ==> "" !in Split(e, '.')
  }

  /** The combined expression has no empty alternative, so that the standard defines its meaning, if and only if no
      domain ending lists an empty name beside others; entries with non-empty labels never do. */
  lemma CombinedStrict(es: seq<string>, o2: seq<string>, oN: seq<string>)
    requires PlainEntries(es)
    requires IsOrder(o2, SortEntries(es).two) && IsOrder(oN, SortEntries(es).long)
    requires o2 != [] || oN != []
    ensures var text := CombinedText(TwoText(o2, SortEntries(es).two), LongText(oN, SortEntries(es).long));
            && Parse(text).Some?
            && (StrictAlt(Parse(text).value) <==> NoEmptyChoice(SortEntries(es).two))
            && (NonEmptyLabels(es) ==> StrictAlt(Parse(text).value))
  {
    var st := SortEntries(es);
    CombinedParses(es, o2, oN);
    CombinedAltStrict(o2, st.two, oN, st.long);
    LongNamesNonEmpty(es);
    if NonEmptyLabels(es) {
      TwoNamesNonEmpty(es);
    }
  }

  lemma LongNamesNonEmpty(es: seq<string>)
    ensures NoEmptyChoice(SortEntries(es).long)
  {
    var m := SortEntries(es).long;
    forall k | k in m ensures "" !in m[k] {
      HeldListed(es, Long(k, ""));
      forall e | e in es ensures Classify(e) != Long(k, "") {
        LongPrefix(e);
      }
    }
  }

  lemma LongPrefix(e: string)
    ensures Classify(e).Long? ==> Classify(e).prefix != ""
  {
    if Classify(e).Long? {
      SplitCount(e, '.');
      NothingBeforeLast(e);
    }
  }

  /** With nothing before its last dot a string has two labels. */
  lemma NothingBeforeLast(e: string)
    requires '.' in e
    ensures LastIndexOf(e, '.') == 0 ==> |Split(e, '.')| == 2
  {
    LastIndexSplit(e, '.');
    if LastIndexOf(e, '.') == 0 {
      var last := Split(e, '.')[|Split(e, '.')| - 1];
      var parts := ["", last];
      assert parts[1..] == [last];
      assert e == Join(parts, ".");
      SplitJoin(parts, '.');
    }
  }

  lemma TwoNamesNonEmpty(es: seq<string>)
    requires NonEmptyLabels(es)
    ensures NoEmptyChoice(SortEntries(es).two)
  {
    var m := SortEntries(es).two;
    forall k | k in m ensures "" !in m[k] {
      HeldListed(es, Two(k, ""));
      forall e | e in es ensures Classify(e) != Two(k, "") {
        TwoName(e);
      }
    }
  }

  lemma TwoName(e: string)
    ensures Classify(e).Two? && Classify(e).name == "" ==> !HasScheme(e) && '.' in e && "" in Split(e, '.')
  {
    SplitCount(e, '.');
  }

  lemma CombinedAltWf(o2: seq<string>, m2: Buckets, oN: seq<string>, mN: Buckets)
    requires o2 != [] || oN != []
    requires NonEmptyBuckets(m2) && PlainBuckets(m2) && forall k :: k in o2 ==> k in m2
    requires NonEmptyBuckets(mN) && PlainBuckets(mN) && forall k :: k in oN ==> k in mN
    ensures WfAlt(CombinedAlt(o2, m2, oN, mN))
  {
    WwwWf();
    if o2 != [] {
      BucketsCatWf(o2, m2);
      SingleWf(One(Cons(WWW, BucketsCat(o2, m2))));
    }
    if oN != [] {
      BucketsCatWf(oN, mN);
      SingleWf(One(BucketsCat(oN, mN)));
    }
    if o2 != [] && oN != [] {
      SingleWf(Or(Single(One(Cons(WWW, BucketsCat(o2, m2)))), One(Single(One(BucketsCat(oN, mN))))));
    }
  }

  lemma EmptyOrders(es: seq<string>, o2: seq<string>, oN: seq<string>)
    requires IsOrder(o2, SortEntries(es).two) && IsOrder(oN, SortEntries(es).long)
    ensures (o2 == [] && oN == []) <==> forall e :: e in es ==> HasScheme(e) || '.' !in e
  {
    hide SortEntries, Classify, HasScheme;
    var st := SortEntries(es);
    SortNonEmpty(es);
    if e :| e in es && !HasScheme(e) && '.' in e {
      Bucketed(e);
      HeldListed(es, Classify(e));
    }
    if o2 != [] {
      assert o2[0] in st.two;
      HeldListed(es, Two(o2[0], st.two[o2[0]][0]));
      var e :| e in es && Classify(e).Two?;
      Bucketed(e);
    }
    if oN != [] {
      assert oN[0] in st.long;
      HeldListed(es, Long(oN[0], st.long[oN[0]][0]));
      var e :| e in es && Classify(e).Long?;
      Bucketed(e);
    }
  }

  /** The entries that go to the buckets. */
  lemma Bucketed(e: string)
    ensures Classify(e).Two? || Classify(e).Long? <==> !HasScheme(e) && '.' in e
  {
    ClassifyKeeps(e);
  }

  lemma ListedBuckets(es: seq<string>, s: string)
    ensures var st := SortEntries(es);
            (InBuckets(st.two, s) || ("www." <= s && InBuckets(st.two, s[4..])) || InBuckets(st.long, s))
            <==> exists e :: e in es && !HasScheme(e) && Listed(e, s)
  {
    hide SortEntries, Classify, InBuckets, Listed, HasScheme;
    InTwoBuckets(es, s);
    InLongBuckets(es, s);
    if "www." <= s {
      InTwoBuckets(es, s[4..]);
      assert s == "www." + s[4..];
    }
    forall e ensures Listed(e, s) && !HasScheme(e) <==> ListedByName(e, s) {
      NameListed(e, s);
    }
    if e :| e in es && ListedByName(e, s) && s == "www." + Rejoin(Classify(e)) {
      assert s[4..] == Rejoin(Classify(e));
    }
  }

  /** The strings an entry stands for, by its bucket. */
  predicate ListedByName(e: string, s: string) {
    || (Classify(e).Two? && (s == Rejoin(Classify(e)) || s == "www." + Rejoin(Classify(e))))
    || (Classify(e).Long? && s == Rejoin(Classify(e)))
  }

  lemma NameListed(e: string, s: string)
    ensures Listed(e, s) && !HasScheme(e) <==> ListedByName(e, s)
  {
    hide Classify, Listed;
    KindListed(e, s);
    ClassifyKeeps(e);
    KindScheme(e);
  }

  lemma KindScheme(e: string)
    ensures Classify(e).Http? || Classify(e).Https? ==> HasScheme(e)
    ensures Classify(e).Two? || Classify(e).Long? ==> !HasScheme(e)
  {
  }

  /** The rule for "http://" entries accepts exactly those entries. */
  lemma HttpLaw(es: seq<string>)
    requires PlainEntries(es) && SortEntries(es).http != []
    ensures var text := SchemeText("http://", SortEntries(es).http);
            && Parse(text).Some? && (StrictAlt(Parse(text).value) <==> "http://" !in es)
            && forall s :: Accepts(text, s) <==> s in es && HasPrefix(s, "http://")
  {
    SchemeHttpLaw(es, "http://");
  }

  lemma SchemeHttpLaw(es: seq<string>, scheme: string)
    requires PlainEntries(es) && SortEntries(es).http != [] && scheme == "http://"
    ensures var text := SchemeText(scheme, SortEntries(es).http);
            && Parse(text).Some? && (StrictAlt(Parse(text).value) <==> scheme !in es)
            && forall s :: Accepts(text, s) <==> s in es && HasPrefix(s, scheme)
  {
    hide SchemeText, SortEntries, Accepts, Parse, StrictAlt, SchemeAlt, HasRest;
    PlainSorted(es);
    var vs := SortEntries(es).http;
    SchemeLaw(scheme, vs);
    SchemeAltStrict(scheme, vs);
    EmptyRest(es, scheme);
    forall s ensures Accepts(SchemeText(scheme, vs), s) <==> s in es && HasPrefix(s, scheme) {
      HttpHeld(es, s);
    }
  }

  lemma EmptyRest(es: seq<string>, scheme: string)
    requires scheme == "http://"
    ensures "" in SortEntries(es).http <==> scheme in es
  {
    HttpHeld(es, scheme);
    assert scheme + "" == scheme;
    forall v ensures HasRest([v], scheme, scheme) ==> v == "" {
      if v != "" {
        assert |scheme + v| > |scheme|;
      }
    }
  }

  lemma HttpHeld(es: seq<string>, s: string)
    ensures HasRest(SortEntries(es).http, "http://", s) <==> s in es && HasPrefix(s, "http://")
  {
    hide SortEntries, Classify;
    if v :| v in SortEntries(es).http && s == "http://" + v {
      HeldListed(es, Http(v));
      var e :| e in es && Classify(e) == Http(v);
      HttpEntry(e, v);
    }
    if s in es && HasPrefix(s, "http://") {
      HttpEntry(s, s[7..]);
      HeldListed(es, Http(s[7..]));
    }
  }

  lemma HttpEntry(e: string, v: string)
    ensures Classify(e) == Http(v) <==> e == "http://" + v
  {
    ClassifyKeeps(e);
  }

  /** `s` is the scheme and one of the listed remainders. */
  predicate HasRest(vs: seq<string>, scheme: string, s: string) {
    exists v :: v in vs && s == scheme + v
  }

  /** What a scheme rule is meant to say, for either scheme. */
  lemma SchemeLaw(scheme: string, vs: seq<string>)
    requires Plain(scheme) && vs != [] && forall v :: v in vs ==> Plain(v)
    ensures var text := SchemeText(scheme, vs);
            && Parse(text) == Some(SchemeAlt(scheme, vs))
            && forall s :: Accepts(text, s) <==> HasRest(vs, scheme, s)
  {
    var text := SchemeText(scheme, vs);
    SchemeAltText(scheme, vs);
    if |vs| == 1 {
      assert vs[0] in vs;
      LitThenWf(vs[0], Nil);
      LitThenWf(scheme, Single(One(LitCat(vs[0]))));
    } else {
      var cs := seq(|vs|, i requires 0 <= i < |vs| => Single(One(LitCat(vs[i]))));
      forall c | c in cs ensures WfCat(c) {
        var i :| 0 <= i < |vs| && c == cs[i];
        LitThenWf(vs[i], Nil);
      }
      AltWf(cs);
      LitThenWf(scheme, Single(AltOf(cs)));
    }
    ParseExactly(text, SchemeAlt(scheme, vs));
    forall s ensures Accepts(text, s) <==> HasRest(vs, scheme, s) {
      SchemeAltMeans(scheme, vs, s);
    }
  }

  // ----- The rules of a row -----

  /** A configuration row; `host` is the host part of `url`. */
  datatype Row = Row(redirectUrl: string, url: string, host: string, dns: string)

  function Entries(row: Row): seq<string> {
    Split(row.redirectUrl, '|')
  }

  /** Rows with neither redirects nor DNS are skipped. */
  predicate Skipped(row: Row) {
    row.redirectUrl == "" && row.dns == ""
  }

  function Rule(pattern: string, url: string): seq<string> {
    if pattern == "" then [] else [pattern + "->" + url]
  }

  function HttpPattern(vs: seq<string>): string {
    if vs == [] || HttpBody(vs) == "" then "" else SchemeText("http://", vs)
  }

  /** The redirect rules of a row: one for its "http://" entries, none for its "https://" entries, one combined. */
  function RowRedirects(row: Row, o2: seq<string>, oN: seq<string>): seq<string>
    requires forall k :: k in o2 ==> k in SortEntries(Entries(row)).two
    requires forall k :: k in oN ==> k in SortEntries(Entries(row)).long
  {
    var st := SortEntries(Entries(row));
    Rule(HttpPattern(st.http), row.url) + Rule(CombinedText(TwoText(o2, st.two), LongText(oN, st.long)), row.url)
  }

  /** Some rule to `url` has a pattern that accepts `s`. */
  predicate Redirects(rules: seq<string>, url: string, s: string) {
    exists r :: r in rules && RuleAccepts(r, url, s)
  }

  predicate RuleAccepts(rule: string, url: string, s: string) {
    var n := |rule| - |url| - 2;
    n >= 0 && rule[n..] == "->" + url && Accepts(rule[..n], s)
  }

  lemma RuleMeans(pattern: string, url: string, s: string)
    ensures Redirects(Rule(pattern, url), url, s) <==> pattern != "" && Accepts(pattern, s)
  {
    var rule := pattern + "->" + url;
    assert rule[|pattern|..] == "->" + url && rule[..|pattern|] == pattern;
    assert RuleAccepts(rule, url, s) <==> Accepts(pattern, s);
  }

  /** Entries for which a rule is written: not the "https://" ones, and not a lone "http://" with nothing after it. */
  predicate Compiled(es: seq<string>, e: string) {
    !HasPrefix(e, "https://") && (HasPrefix(e, "http://") ==> SortEntries(es).http != [""])
  }

  /** The rules of a row redirect exactly the strings its compiled entries list. */
  lemma RowLaw(row: Row, o2: seq<string>, oN: seq<string>, s: string)
    requires PlainEntries(Entries(row))
    requires IsOrder(o2, SortEntries(Entries(row)).two) && IsOrder(oN, SortEntries(Entries(row)).long)
    ensures Redirects(RowRedirects(row, o2, oN), row.url, s) <==>
            exists e :: e in Entries(row) && Compiled(Entries(row), e) && Listed(e, s)
  {
    hide TwoText, LongText, HttpPattern, SortEntries, Accepts, Redirects, Rule, CombinedText;
    var es := Entries(row);
    var st := SortEntries(es);
    var http := HttpPattern(st.http);
    var combined := CombinedText(TwoText(o2, st.two), LongText(oN, st.long));
    RuleMeans(http, row.url, s);
    RuleMeans(combined, row.url, s);
    CombinedLaw(es, o2, oN);
    HttpPatternLaw(es, s);
    if e :| e in es && Compiled(es, e) && Listed(e, s) {
      if HasScheme(e) {
        assert HasPrefix(e, "http://") && s == e;
      } else {
        NotDropped(e, s);
      }
    }
    if e :| e in es && !HasScheme(e) && Listed(e, s) {
      assert !HasPrefix(e, "https://") && !HasPrefix(e, "http://");
    }
    if s in es && HasPrefix(s, "http://") {
      assert Listed(s, s) && !HasPrefix(s, "https://") by {
        assert s[4] == "http://"[4];
      }
    }
    RedirectsEither(Rule(http, row.url), Rule(combined, row.url), row.url, s);
  }

  lemma RedirectsEither(a: seq<string>, b: seq<string>, url: string, s: string)
    ensures Redirects(a + b, url, s) <==> Redirects(a, url, s) || Redirects(b, url, s)
  {
  }

  lemma NotDropped(e: string, s: string)
    requires !HasScheme(e) && Listed(e, s)
    ensures '.' in e
  {
    SplitCount(e, '.');
  }

  lemma HttpPatternLaw(es: seq<string>, s: string)
    requires PlainEntries(es)
    ensures var http := HttpPattern(SortEntries(es).http);
            (http != "" && Accepts(http, s)) <==> s in es && HasPrefix(s, "http://") && SortEntries(es).http != [""]
  {
    var vs := SortEntries(es).http;
    HttpHeld(es, s);
    if vs != [] {
      HttpLaw(es);
      HttpPatternEmpty(vs);
    }
  }

  lemma HttpPatternEmpty(vs: seq<string>)
    requires vs != []
    ensures HttpPattern(vs) == "" <==> vs == [""]
  {
    var body := HttpBody(vs);
    if |vs| > 1 {
      JoinContains(seq(|vs|, i requires 0 <= i < |vs| => "(" + vs[i] + ")"), '|');
    } else {
      assert vs == [vs[0]];
    }
    EscapeCat("http://(" + body, ")");
    EscapeOne(')');
    assert SchemeText("http://", vs) == EscapeDots("http://(" + body + ")") by {
      assert "http://" + "(" + body + ")" == "http://(" + body + ")";
    }
  }

  /** Every string that some entry lists is redirected. */
  ghost predicate Covers(row: Row, o2: seq<string>, oN: seq<string>)
    requires forall k :: k in o2 ==> k in SortEntries(Entries(row)).two
    requires forall k :: k in oN ==> k in SortEntries(Entries(row)).long
  {
    forall e, s :: e in Entries(row) && Listed(e, s) ==> Redirects(RowRedirects(row, o2, oN), row.url, s)
  }

  /** `e` is also listed as a three-label "www." entry. */
  predicate ListedAsWww(es: seq<string>, e: string) {
    "www." + e in es && |Split("www." + e, '.')| == 3
  }

  predicate NoGap(es: seq<string>) {
    SortEntries(es).http != [""] && forall e :: e in es && HasPrefix(e, "https://") ==> ListedAsWww(es, e)
  }

  /** A row covers what it lists exactly when it has no "https://" entry (unless also listed as a three-label
      "www." entry) and its "http://" entries are not a single empty one. */
  lemma RowComplete(row: Row, o2: seq<string>, oN: seq<string>)
    requires PlainEntries(Entries(row))
    requires IsOrder(o2, SortEntries(Entries(row)).two) && IsOrder(oN, SortEntries(Entries(row)).long)
    ensures Covers(row, o2, oN) <==> NoGap(Entries(row))
  {
    var es := Entries(row);
    if Covers(row, o2, oN) {
      if SortEntries(es).http == [""] {
        CoversLoneHttp(row, o2, oN);
      }
      forall e | e in es && HasPrefix(e, "https://") ensures ListedAsWww(es, e) {
        CoversHttps(row, o2, oN, e);
      }
    }
    if NoGap(es) {
      forall e, s | e in es && Listed(e, s) ensures Redirects(RowRedirects(row, o2, oN), row.url, s) {
        RowLaw(row, o2, oN, s);
        NoGapCompiled(es, e, s);
      }
    }
  }

  lemma CoversLoneHttp(row: Row, o2: seq<string>, oN: seq<string>)
    requires PlainEntries(Entries(row))
    requires IsOrder(o2, SortEntries(Entries(row)).two) && IsOrder(oN, SortEntries(Entries(row)).long)
    requires SortEntries(Entries(row)).http == [""]
    ensures !Covers(row, o2, oN)
  {
    LoneHttpListed(Entries(row));
    LoneHttpUnlisted(row, o2, oN, "http://");
  }

  lemma LoneHttpUnlisted(row: Row, o2: seq<string>, oN: seq<string>, s: string)
    requires PlainEntries(Entries(row))
    requires IsOrder(o2, SortEntries(Entries(row)).two) && IsOrder(oN, SortEntries(Entries(row)).long)
    requires SortEntries(Entries(row)).http == [""] && s == "http://"
    ensures !Redirects(RowRedirects(row, o2, oN), row.url, s)
  {
    var es := Entries(row);
    RowLaw(row, o2, oN, s);
    forall e | e in es && Compiled(es, e) ensures !Listed(e, s) {
      if Listed(e, s) {
        LoneNotCompiled(es, e, s);
      }
    }
  }

  lemma LoneNotCompiled(es: seq<string>, e: string, s: string)
    requires SortEntries(es).http == [""] && s == "http://" && Listed(e, s)
    ensures !Compiled(es, e)
  {
    OnlyScheme(e, s);
    TwoLabels(s);
  }

  lemma CoversHttps(row: Row, o2: seq<string>, oN: seq<string>, e: string)
    requires PlainEntries(Entries(row))
    requires IsOrder(o2, SortEntries(Entries(row)).two) && IsOrder(oN, SortEntries(Entries(row)).long)
    requires Covers(row, o2, oN) && e in Entries(row) && HasPrefix(e, "https://")
    ensures ListedAsWww(Entries(row), e)
  {
    assert Listed(e, e);
    RowLaw(row, o2, oN, e);
    var e' :| e' in Entries(row) && Compiled(Entries(row), e') && Listed(e', e);
    OnlyScheme(e', e);
  }

  lemma NoGapCompiled(es: seq<string>, e: string, s: string)
    requires NoGap(es) && e in es && Listed(e, s)
    ensures exists e' :: e' in es && Compiled(es, e') && Listed(e', s)
  {
    if HasPrefix(e, "https://") {
      WwwHasNoScheme(e);
      assert ListedAsWww(es, e);
      assert Compiled(es, "www." + e) && Listed("www." + e, s);
    } else {
      assert Compiled(es, e);
    }
  }

  lemma LoneHttpListed(es: seq<string>)
    requires SortEntries(es).http == [""]
    ensures "http://" in es && Listed("http://", "http://")
  {
    assert "" in SortEntries(es).http && "http://" == "http://" + "";
    HttpHeld(es, "http://");
  }

  lemma TwoLabels(s: string)
    requires '.' !in s
    ensures |Split("www." + s, '.')| == 2
  {
    var parts := ["www", s];
    assert Join(parts[1..], ".") == s;
    assert Join(parts, ".") == "www." + s;
    SplitJoin(parts, '.');
  }

  lemma WwwHasNoScheme(t: string)
    ensures !HasScheme("www." + t) && !HasPrefix("www." + t, "http://") && !HasPrefix("www." + t, "https://")
  {
    assert ("www." + t)[0] == 'w';
  }

  /** A string with a scheme is listed by itself, or by its three-label "www." form. */
  lemma OnlyScheme(e: string, s: string)
    requires HasScheme(s) && Listed(e, s)
    ensures e == s || (e == "www." + s && |Split(e, '.')| == 3)
  {
    WwwHasNoScheme(e);
  }

  lemma HttpsKind(rest: string)
    ensures Classify("https://" + rest) == Https(rest)
  {
    var e := "https://" + rest;
    assert e[4] == 's' && "http://"[4] == ':';
  }

  /** The shortest kind of row that shows the gap: its only string is not redirected. */
  lemma HttpsGap(rest: string, url: string, host: string, dns: string)
    requires '|' !in rest
    ensures var row := Row("https://" + rest, url, host, dns);
            && Entries(row) == [row.redirectUrl] && Listed(row.redirectUrl, row.redirectUrl)
            && SortEntries(Entries(row)) == Sorted([], [rest], map[], map[])
            && RowRedirects(row, [], []) == []
  {
    HttpsKind(rest);
    EntryAlone("https://" + rest);
  }

  /** A line of one entry. */
  lemma EntryAlone(e: string)
    requires '|' !in e
    ensures Split(e, '|') == [e] && SortEntries([e]) == Sorted([], [], map[], map[]).Add(Classify(e))
  {
    SplitCount(e, '|');
    var parts := Split(e, '|');
    assert parts == [parts[0]];
    SortLast([], e);
    assert [] + [e] == [e];
  }
}
