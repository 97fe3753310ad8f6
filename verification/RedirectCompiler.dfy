/** The compiler as the server runs it: loops that fill the collections, append to string accumulators and add
    rules to the configuration being built. Maps are iterated in an arbitrary order, returned as a ghost. */
module RedirectCompiler {
  import opened Text
  import opened Regex
  import opened RedirectEntries
  import opened RedirectPatterns
  import opened RedirectLaws
  import opened RedirectExact
  import opened HostRules

  /** The two bucket maps that classification fills in place. */
  class BucketMaps {
    var two: Buckets
    var long: Buckets

    constructor ()
      ensures two == map[] && long == map[]
    {
      two, long := map[], map[];
    }

    method HandleNotStartWithHttp(v1: string)
      requires !HasScheme(v1)
      modifies this
      ensures forall http, https ::
        Sorted(http, https, two, long) == Sorted(http, https, old(two), old(long)).Add(Classify(v1))
    {
      var split := Split(v1, '.');
      if |split| == 2 {
        two := Put(two, split[1], split[0]);
      } else if |split| == 3 && HasPrefix(v1, "www.") {
        two := Put(two, split[2], split[1]);
      } else if |split| > 1 {
        SplitCount(v1, '.');
        LastIndexSplit(v1, '.');
        long := Put(long, split[|split| - 1], v1[..LastIndexOf(v1, '.')]);
      }
    }
  }

  method HandleStartWithHttp(v1: string, http: seq<string>, https: seq<string>)
    returns (http': seq<string>, https': seq<string>)
    requires HasScheme(v1)
    ensures forall two, long ::
      Sorted(http', https', two, long) == Sorted(http, https, two, long).Add(Classify(v1))
  {
    http', https' := http, https;
    if HasPrefix(v1, "http://") {
      http' := http' + [v1[|"http://"|..]];
    } else if HasPrefix(v1, "https://") {
      https' := https' + [v1[|"https://"|..]];
    }
  }

  /** The classification loop over the pieces of a redirect line. */
  method ClassifyLine(line: string, maps: BucketMaps) returns (http: seq<string>, https: seq<string>)
    requires maps.two == map[] && maps.long == map[]
    modifies maps
    ensures Sorted(http, https, maps.two, maps.long) == SortEntries(Split(line, '|'))
  {
    http, https := [], [];
    var names := Split(line, '|');
    for i := 0 to |names|
      invariant Sorted(http, https, maps.two, maps.long) == SortEntries(names[..i])
    {
      var v1 := names[i];
      SortLast(names[..i], v1);
      assert names[..i + 1] == names[..i] + [v1];
      if HasScheme(v1) {
        http, https := HandleStartWithHttp(v1, http, https);
      } else {
        maps.HandleNotStartWithHttp(v1);
      }
    }
    assert names[..|names|] == names;
  }

  lemma JoinAppend(parts: seq<string>, x: string, sep: string)
    ensures Join(parts + [x], sep) == if parts == [] then x else Join(parts, sep) + sep + x
  {
    if parts != [] {
      JoinLast(parts + [x], sep);
      assert (parts + [x])[..|parts|] == parts;
    }
  }

  method JoinValues(v: seq<string>) returns (tmpst: string)
    ensures tmpst == Join(v, "|")
  {
    tmpst := "";
    for i := 0 to |v|
      invariant tmpst == Join(v[..i], "|") + if 0 < i < |v| then "|" else ""
    {
      JoinAppend(v[..i], v[i], "|");
      assert v[..i + 1] == v[..i] + [v[i]];
      if i == |v| - 1 {
        tmpst := tmpst + v[i];
      } else {
        tmpst := tmpst + (v[i] + "|");
      }
    }
    assert v[..|v|] == v;
  }

  /** The loop both bucket handlers share: one group per bucket, bars between them. */
  method WriteBuckets(m: Buckets) returns (body: string, ghost order: seq<string>)
    ensures IsOrder(order, m) && body == Join(BucketTexts(order, m), "|")
  {
    hide BucketText, Join;
    body, order := "", [];
    JoinNone("|");
    assert BucketTexts([], m) == [];
    var index := 0;
    var left := m.Keys;
    while left != {}
      invariant left <= m.Keys && index + |left| == |m.Keys| && index == |order|
      invariant forall i, j :: 0 <= i < j < |order| ==> order[i] != order[j]
      invariant forall k :: k in order <==> k in m && k !in left
      invariant body == Join(BucketTexts(order, m), "|") + if 0 < index < |m| then "|" else ""
      decreases |left|
    {
      var k :| k in left;
      left := left - {k};
      index := index + 1;
      var v := m[k];
      JoinAppend(BucketTexts(order, m), BucketText(k, v), "|");
      assert BucketTexts(order + [k], m) == BucketTexts(order, m) + [BucketText(k, v)];
      order := order + [k];
      body := AppendBucket(body, k, v, index == |m|);
    }
  }

  lemma JoinNone(sep: string)
    ensures Join([], sep) == ""
  {
  }

  method AppendBucket(body: string, k: string, v: seq<string>, last: bool) returns (body': string)
    ensures body' == body + BucketText(k, v) + if last then "" else "|"
  {
    var tmpst := JoinValues(v);
    if last {
      if |v| == 1 {
        body' := body + ("(" + tmpst + "." + k + ")");
      } else {
        body' := body + ("(" + "(" + tmpst + ")." + k + ")");
      }
    } else {
      if |v| == 1 {
        body' := body + ("(" + tmpst + "." + k + ")" + "|");
      } else {
        body' := body + ("(" + "(" + tmpst + ")." + k + ")" + "|");
      }
    }
  }

  method HandleTwoStr(m: Buckets) returns (twostrs: string, ghost order: seq<string>)
    ensures IsOrder(order, m) && twostrs == TwoText(order, m)
  {
    twostrs, order := "", [];
    if |m| > 0 {
      twostrs, order := WriteBuckets(m);
      SplitCount(twostrs, '|');
      NoKeysNoOrder(order, m);
      if |Split(twostrs, '|')| > 1 {
        OpenGroup(twostrs);
        twostrs := "(www.)?(" + twostrs + ")";
      } else {
        twostrs := "(www.)?" + twostrs;
      }
      twostrs := EscapeDots(twostrs);
    }
  }

  lemma OpenGroup(body: string)
    ensures "(www.)?(" + body + ")" == "(www.)?" + ("(" + body + ")")
  {
    assert "(www.)?(" == "(www.)?" + "(";
  }

  method HandleNotTwoStr(m: Buckets) returns (nottwostrs: string, ghost order: seq<string>)
    ensures IsOrder(order, m) && nottwostrs == LongText(order, m)
  {
    nottwostrs, order := "", [];
    if |m| > 0 {
      nottwostrs, order := WriteBuckets(m);
      SplitCount(nottwostrs, '|');
      NoKeysNoOrder(order, m);
      if |Split(nottwostrs, '|')| > 1 {
        nottwostrs := "(" + nottwostrs + ")";
      }
      nottwostrs := EscapeDots(nottwostrs);
    }
  }

  lemma NoKeysNoOrder(order: seq<string>, m: Buckets)
    requires IsOrder(order, m)
    ensures order == [] <==> |m| == 0
  {
    if order != [] {
      assert order[0] in m;
    }
    if |m| > 0 {
      var k :| k in m;
      assert k in order;
    }
  }

  /** The configuration being built. */
  class DataSlice {
    var redirect: seq<string>
    var dnsproxy: seq<string>

    constructor ()
      ensures redirect == [] && dnsproxy == []
    {
      redirect, dnsproxy := [], [];
    }

    method HandleHttp(httpstr: seq<string>, url: string)
      modifies this`redirect
      ensures redirect == old(redirect) + Rule(HttpPattern(httpstr), url)
    {
      hide Replace;
      var myhttp := "";
      var index := 0;
      ghost var groups := seq(|httpstr|, i requires 0 <= i < |httpstr| => "(" + httpstr[i] + ")");
      while index < |httpstr|
        invariant index <= |httpstr| && redirect == old(redirect)
        invariant if |httpstr| == 1 then myhttp == if index == 0 then "" else httpstr[0]
                  else myhttp == Join(groups[..index], "|") + if 0 < index < |httpstr| then "|" else ""
      {
        var v := httpstr[index];
        JoinAppend(groups[..index], groups[index], "|");
        assert groups[..index + 1] == groups[..index] + [groups[index]];
        index := index + 1;
        if |httpstr| == 1 {
          myhttp := myhttp + v;
        } else if |httpstr| > 1 {
          if |httpstr| == index {
            myhttp := myhttp + ("(" + v + ")");
          } else {
            myhttp := myhttp + ("(" + v + ")" + "|");
          }
        }
      }
      assert groups[..|httpstr|] == groups;
      assert httpstr != [] ==> myhttp == HttpBody(httpstr);
      var myhttp1 := "http://" + "(" + myhttp + ")";
      myhttp1 := EscapeDots(myhttp1);
      if httpstr != [] {
        SchemeTextNotEmpty(httpstr);
      }
      var rules := [];
      if |myhttp| > 0 {
        rules := [myhttp1 + "->" + url];
      }
      assert rules == Rule(HttpPattern(httpstr), url);
      redirect := redirect + rules;
    }

    /** As written, the length tested is that of the accumulator, so nothing is ever accumulated. */
    method HandleHttps(httpsstr: seq<string>, url: string)
      modifies this`redirect
      ensures redirect == old(redirect)
    {
      var myHttps := "";
      var index1 := 0;
      for i := 0 to |httpsstr|
        invariant myHttps == ""
      {
        var v := httpsstr[i];
        index1 := index1 + 1;
        if |myHttps| == 1 {
          myHttps := myHttps + v;
        } else if |myHttps| > 1 {
          if |myHttps| == index1 {
            myHttps := myHttps + ("(" + v + ")");
          } else {
            myHttps := myHttps + ("(" + v + ")" + "|");
          }
        }
      }
      var myHttps1 := "https://" + "(" + myHttps + ")";
      myHttps1 := EscapeDots(myHttps1);
      var rules := [];
      if |myHttps| > 0 {
        rules := [myHttps1 + "->" + url];
      }
      redirect := redirect + rules;
    }

    method HandleHost(host: string, dns: string)
      modifies this`dnsproxy
      ensures dnsproxy == old(dnsproxy) + [HostPattern(host) + ":" + dns]
    {
      if ':' in host {
        var split := Split(host, ':');
        SplitCount(host, ':');
        if |split| > 1 {
          if HasPrefix(split[0], "www.") && |split| == 3 {
            split := split[0 := EscapeDots(split[0])];
            split := split[0 := Replace(split[0], "www.", "(www\\\\.)?")];
            dnsproxy := dnsproxy + [split[0] + ":" + dns];
          } else {
            split := split[0 := EscapeDots(split[0])];
            dnsproxy := dnsproxy + ["(www\\.)?" + split[0] + ":" + dns];
          }
        }
      } else if HasPrefix(host, "www.") {
        var h := Replace(host, "www.", "(www.)?");
        h := EscapeDots(h);
        dnsproxy := dnsproxy + [h + ":" + dns];
      } else {
        var h := EscapeDots(host);
        dnsproxy := dnsproxy + ["(www\\.)?" + h + ":" + dns];
      }
    }

    /** One configuration row. */
    method CompileRow(row: Row) returns (ghost o2: seq<string>, ghost oN: seq<string>)
      modifies this
      ensures IsOrder(o2, SortEntries(Entries(row)).two) && IsOrder(oN, SortEntries(Entries(row)).long)
      ensures redirect == old(redirect) + RowRedirects(row, o2, oN)
      ensures dnsproxy == old(dnsproxy) + [HostPattern(row.host) + ":" + row.dns]
    {
      hide SortEntries, TwoText, LongText, HttpPattern, HostPattern;
      var maps := new BucketMaps();
      var httpstr, httpsstr := ClassifyLine(row.redirectUrl, maps);
      HandleHttp(httpstr, row.url);
      HandleHttps(httpsstr, row.url);
      var twostrs, nottwostrs;
      twostrs, o2 := HandleTwoStr(maps.two);
      nottwostrs, oN := HandleNotTwoStr(maps.long);
      var twoAndNotTwo := "";
      if |twostrs| > 0 && |nottwostrs| > 0 {
        twoAndNotTwo := "((" + twostrs + ")|(" + nottwostrs + "))";
      } else if |twostrs| == 0 {
        twoAndNotTwo := nottwostrs;
      } else if |nottwostrs| == 0 {
        twoAndNotTwo := twostrs;
      }
      if |twoAndNotTwo| != 0 {
        twoAndNotTwo := twoAndNotTwo + "->" + row.url;
        redirect := redirect + [twoAndNotTwo];
      }
      HandleHost(row.host, row.dns);
    }

    /** All rows, in order: `parts` and `hosts` are what each adds to the two lists. A row with neither redirects nor
        DNS adds nothing, every other row adds its one DNS rule; and a row whose entries are plain adds a rule to its
        URL for whatever an entry lists that gets a rule, and no rule for anything else. */
    method CompileAll(rows: seq<Row>) returns (ghost parts: seq<seq<string>>, ghost hosts: seq<seq<string>>)
      modifies this
      ensures |parts| == |rows| && redirect == old(redirect) + Flatten(parts)
      ensures |hosts| == |rows| && dnsproxy == old(dnsproxy) + Flatten(hosts)
      ensures forall i :: 0 <= i < |rows| ==>
                hosts[i] == if rows[i].redirectUrl == "" && rows[i].dns == "" then []
                            else [HostPattern(rows[i].host) + ":" + rows[i].dns]
      ensures forall i :: 0 <= i < |rows| && rows[i].redirectUrl == "" && rows[i].dns == "" ==> parts[i] == []
      ensures forall i :: 0 <= i < |rows| ==> RowRules(rows[i], parts[i])
      ensures forall i, e, s ::
        (0 <= i < |rows| && e in Split(rows[i].redirectUrl, '|') && PlainEntries(Split(rows[i].redirectUrl, '|')) &&
         !("https://" <= e) && e != "http://" && Listed(e, s)) ==>
          exists p :: p + "->" + rows[i].url in redirect && Accepts(p, s)
      ensures forall i, p, s ::
        (0 <= i < |rows| && p + "->" + rows[i].url in parts[i] && PlainEntries(Split(rows[i].redirectUrl, '|')) &&
         Accepts(p, s)) ==>
          exists e :: e in Split(rows[i].redirectUrl, '|') && Listed(e, s)
      ensures forall i :: 0 <= i < |rows| && (rows[i].redirectUrl != "" || rows[i].dns != "") ==>
                HostPattern(rows[i].host) + ":" + rows[i].dns in dnsproxy
    {
      hide RowRules, Accepts, Listed, PlainEntries, HostPattern;
      parts, hosts := [], [];
      for n := 0 to |rows|
        invariant |parts| == n && redirect == old(redirect) + Flatten(parts)
        invariant |hosts| == n && dnsproxy == old(dnsproxy) + Flatten(hosts)
        invariant forall i :: 0 <= i < n ==> RowRules(rows[i], parts[i]) && hosts[i] == HostPart(rows[i])
      {
        ghost var part := CompileUnlessEmpty(rows[n]);
        FlattenAppend(old(redirect), parts, part);
        FlattenAppend(old(dnsproxy), hosts, HostPart(rows[n]));
        parts, hosts := parts + [part], hosts + [HostPart(rows[n])];
      }
      forall i | 0 <= i < |rows|
        ensures rows[i].redirectUrl == "" && rows[i].dns == "" ==> parts[i] == []
        ensures RowCovers(rows[i], redirect) && RowKeeps(rows[i], parts[i])
        ensures rows[i].redirectUrl != "" || rows[i].dns != "" ==>
                  HostPattern(rows[i].host) + ":" + rows[i].dns in dnsproxy
      {
        FlattenHolds(parts, i);
        FlattenHolds(hosts, i);
        RowRulesMean(rows[i], parts[i], redirect);
        assert hosts[i] == HostPart(rows[i]);
      }
      assert forall i :: 0 <= i < |rows| ==> RowCovers(rows[i], redirect) && RowKeeps(rows[i], parts[i]);
    }

    method CompileUnlessEmpty(row: Row) returns (ghost part: seq<string>)
      modifies this
      ensures redirect == old(redirect) + part && RowRules(row, part)
      ensures dnsproxy == old(dnsproxy) + HostPart(row)
    {
      part := [];
      if !(|row.redirectUrl| == 0 && |row.dns| == 0) {
        ghost var o2, oN := CompileRow(row);
        part := RowRedirects(row, o2, oN);
        RowRulesHold(row, o2, oN);
      }
    }
  }

  /** What a row adds to the DNS rules. */
  ghost function HostPart(row: Row): seq<string> {
    if row.redirectUrl == "" && row.dns == "" then [] else [HostPattern(row.host) + ":" + row.dns]
  }

  /** Some rule to the row's URL accepts what an entry of a plain row lists. */
  ghost predicate RowCovers(row: Row, redirect: seq<string>) {
    forall e, s ::
      (e in Split(row.redirectUrl, '|') && PlainEntries(Split(row.redirectUrl, '|')) && !("https://" <= e) &&
       e != "http://" && Listed(e, s)) ==>
        exists p :: p + "->" + row.url in redirect && Accepts(p, s)
  }

  /** The rules of a plain row accept only what its entries list. */
  ghost predicate RowKeeps(row: Row, part: seq<string>) {
    forall p, s ::
      p + "->" + row.url in part && PlainEntries(Split(row.redirectUrl, '|')) && Accepts(p, s) ==>
        exists e :: e in Split(row.redirectUrl, '|') && Listed(e, s)
  }

  lemma RowRulesMean(row: Row, part: seq<string>, redirect: seq<string>)
    requires RowRules(row, part) && forall r :: r in part ==> r in redirect
    ensures row.redirectUrl == "" && row.dns == "" ==> part == []
    ensures RowCovers(row, redirect) && RowKeeps(row, part)
  {
    hide Accepts, Listed, SortEntries, WrittenFor, Survives, RowRight;
    forall e, s |
      e in Split(row.redirectUrl, '|') && PlainEntries(Split(row.redirectUrl, '|')) && !("https://" <= e) &&
      e != "http://" && Listed(e, s)
      ensures exists p :: p + "->" + row.url in redirect && Accepts(p, s)
    {
      if Skipped(row) {
        NothingListed(e, s);
      }
      OnlyEmptyHttp(Entries(row), e);
      assert RowLists(row, s);
      var r :| r in part && RuleAccepts(r, row.url, s);
      var n := |r| - |row.url| - 2;
      assert r == r[..n] + "->" + row.url;
    }
    forall p, s |
      p + "->" + row.url in part && PlainEntries(Split(row.redirectUrl, '|')) && Accepts(p, s)
      ensures exists e :: e in Split(row.redirectUrl, '|') && Listed(e, s)
    {
      var r := p + "->" + row.url;
      assert r[|p|..] == "->" + row.url && r[..|p|] == p;
      assert RuleAccepts(r, row.url, s);
      assert RowLists(row, s);
    }
  }

  /** An empty line lists nothing. */
  lemma NothingListed(e: string, s: string)
    requires e in Split("", '|')
    ensures !Listed(e, s)
  {
    SplitCount("", '|');
    SplitCount(e, '.');
    var parts := Split("", '|');
    assert parts == [parts[0]];
    assert e == "";
  }

  /** If the "http://" entries are a lone empty one, that is the only such entry. */
  lemma OnlyEmptyHttp(es: seq<string>, e: string)
    requires e in es && e != "http://" && !HasPrefix(e, "https://")
    ensures Compiled(es, e)
  {
    if HasPrefix(e, "http://") {
      HttpEntry(e, e[7..]);
      HeldListed(es, Http(e[7..]));
      assert e[7..] != "" && e[7..] in SortEntries(es).http;
    }
  }

  lemma {:induction false} FlattenHolds(parts: seq<seq<string>>, i: int)
    requires 0 <= i < |parts|
    ensures forall r :: r in parts[i] ==> r in Flatten(parts)
  {
    if i < |parts| - 1 {
      FlattenHolds(parts[..|parts| - 1], i);
    }
  }

  /** Some compiled entry of the row lists `s`. */
  ghost predicate RowLists(row: Row, s: string) {
    exists e :: e in Entries(row) && Compiled(Entries(row), e) && Listed(e, s)
  }

  /** The rules are those of the row, for some iteration order of its buckets. */
  ghost predicate WrittenFor(row: Row, rules: seq<string>) {
    exists o2, oN :: IsOrder(o2, SortEntries(Entries(row)).two) && IsOrder(oN, SortEntries(Entries(row)).long) &&
                     rules == RowRedirects(row, o2, oN)
  }

  /** What the rules written for a row do: they redirect what its compiled entries list if no special character but the
      dot stands in them, and for a row of one entry what it lists exactly if the entry survives. */
  ghost predicate RowRules(row: Row, rules: seq<string>) {
    if Skipped(row) then rules == []
    else
      && WrittenFor(row, rules)
      && (PlainEntries(Entries(row)) ==> forall s :: Redirects(rules, row.url, s) <==> RowLists(row, s))
      && ('|' !in row.redirectUrl ==> (RowRight(row, rules) <==> Survives(row.redirectUrl)))
  }

  lemma RowRulesHold(row: Row, o2: seq<string>, oN: seq<string>)
    requires !Skipped(row)
    requires IsOrder(o2, SortEntries(Entries(row)).two) && IsOrder(oN, SortEntries(Entries(row)).long)
    ensures RowRules(row, RowRedirects(row, o2, oN))
  {
    hide Survives, SortEntries, Redirects, RowRedirects;
    if PlainEntries(Entries(row)) {
      forall s ensures Redirects(RowRedirects(row, o2, oN), row.url, s) <==> RowLists(row, s) {
        RowLaw(row, o2, oN, s);
      }
    }
    if '|' !in row.redirectUrl {
      RowExact(row, o2, oN);
    }
  }

  ghost function Flatten(parts: seq<seq<string>>): seq<string> {
    if parts == [] then [] else Flatten(parts[..|parts| - 1]) + parts[|parts| - 1]
  }

  lemma FlattenAppend(start: seq<string>, parts: seq<seq<string>>, part: seq<string>)
    ensures start + Flatten(parts + [part]) == (start + Flatten(parts)) + part
  {
    assert (parts + [part])[..|parts|] == parts;
  }

  lemma SchemeTextNotEmpty(vs: seq<string>)
    requires vs != []
    ensures SchemeText("http://", vs) != "" && (HttpBody(vs) == "" <==> vs == [""])
  {
    HttpPatternEmpty(vs);
    if |vs| > 1 {
      JoinContains(seq(|vs|, i requires 0 <= i < |vs| => "(" + vs[i] + ")"), '|');
    }
    EscapeCat("http://" + "(" + HttpBody(vs), ")");
    EscapeOne(')');
  }
}
