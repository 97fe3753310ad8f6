/** The entries of a redirect line: what each one lists, how it is classified, and the buckets it is sorted into. */
module RedirectEntries {
  import opened Text

  // ----- Entries of a redirect line -----

  datatype Kind =
    | Http(rest: string)
    | Https(rest: string)
    | Two(tld: string, name: string)
    | Long(tld: string, prefix: string)
    | Dropped

  predicate HasScheme(e: string) {
    HasPrefix(e, "http:") || HasPrefix(e, "https:")
  }

  function Classify(e: string): Kind {
    if HasScheme(e) then
      if HasPrefix(e, "http://") then Http(e[|"http://"|..])
      else if HasPrefix(e, "https://") then Https(e[|"https://"|..])
      else Dropped
    else
      var parts := Split(e, '.');
      if |parts| == 2 then Two(parts[1], parts[0])
      else if |parts| == 3 && HasPrefix(e, "www.") then Two(parts[2], parts[1])
      else if |parts| > 1 then
        SplitCount(e, '.');
        LastIndexSplit(e, '.');
        Long(parts[|parts| - 1], e[..LastIndexOf(e, '.')])
      else Dropped
  }

  /** The strings an entry is meant to redirect. */
  predicate Listed(e: string, s: string) {
    if HasScheme(e) then (HasPrefix(e, "http://") || HasPrefix(e, "https://")) && s == e
    else
      var n := |Split(e, '.')|;
      if n == 2 then s == e || s == "www." + e
      else if n == 3 && HasPrefix(e, "www.") then s == e || "www." + s == e
      else n > 2 && s == e
  }

  // ----- What an entry lists, by its form -----

  predicate Schemeless(e: string) {
    !("http:" <= e) && !("https:" <= e)
  }

  /** An entry with a scheme lists itself, if two slashes follow. */
  lemma SchemeLists(e: string, s: string)
    requires "http:" <= e || "https:" <= e
    ensures Listed(e, s) <==> ("http://" <= e || "https://" <= e) && s == e
  {
  }

  /** Two labels list themselves and their "www." form. */
  lemma TwoLists(a: string, b: string, s: string)
    requires '.' !in a && '.' !in b && Schemeless(a + "." + b)
    ensures Listed(a + "." + b, s) <==> s == a + "." + b || s == "www." + (a + "." + b)
  {
    Labels([a, b]);
    assert [a, b][1..] == [b];
    assert Join([a, b], ".") == a + "." + b;
  }

  /** Two labels behind "www." list themselves with and without it. */
  lemma WwwLists(a: string, b: string, s: string)
    requires '.' !in a && '.' !in b
    ensures Listed("www." + (a + "." + b), s) <==> s == a + "." + b || s == "www." + (a + "." + b)
  {
    var e, www := "www." + (a + "." + b), "www";
    var parts := [www, a, b];
    Labels(parts);
    assert parts[1..] == [a, b] && parts[1..][1..] == [b];
    assert Join(parts[1..], ".") == a + "." + b;
    assert Join(parts, ".") == www + "." + (a + "." + b);
    assert www + "." == "www.";
    assert e[0] == 'w' && e[..4] == "www." && e[4..] == a + "." + b;
    assert "www." + s == e <==> s == e[4..];
  }

  /** Any other name of three or more labels lists itself alone. */
  lemma LongLists(a: string, b: string, rest: string, s: string)
    requires '.' !in a && '.' !in b && Schemeless(a + "." + (b + "." + rest))
    requires a != "www" || '.' in rest
    ensures Listed(a + "." + (b + "." + rest), s) <==> s == a + "." + (b + "." + rest)
  {
    var e := a + "." + (b + "." + rest);
    var parts := [a, b] + Split(rest, '.');
    SplitCount(rest, '.');
    assert parts[1..] == [b] + Split(rest, '.') && parts[1..][1..] == Split(rest, '.');
    assert Join(parts[1..], ".") == b + "." + rest;
    assert Join(parts, ".") == e;
    Labels(parts);
    WwwLabel(a, b + "." + rest);
  }

  lemma WwwLabel(a: string, rest: string)
    requires '.' !in a
    ensures "www." <= a + "." + rest <==> a == "www"
  {
    var e := a + "." + rest;
    if "www." <= e {
      assert e[3] == "www."[3] && e[..3] == "www."[..3];
      assert |a| <= 3 ==> e[|a|] == '.';
      assert e[0] != '.' && e[1] != '.' && e[2] != '.';
      assert a == e[..|a|];
    }
    if a == "www" {
      assert e[..4] == "www.";
    }
  }

  lemma Labels(parts: seq<string>)
    requires |parts| >= 1 && forall p :: p in parts ==> '.' !in p
    ensures Split(Join(parts, "."), '.') == parts
  {
    SplitJoin(parts, '.');
  }

  /** A name without dot lists nothing. */
  lemma NoDotLists(e: string, s: string)
    requires '.' !in e && Schemeless(e)
    ensures !Listed(e, s)
  {
    SplitCount(e, '.');
  }

  /** What a kind says about its entry, read back. */
  function Rejoin(k: Kind): string
    requires k != Dropped
  {
    match k
    case Http(rest) => "http://" + rest
    case Https(rest) => "https://" + rest
    case Two(tld, name) => name + "." + tld
    case Long(tld, prefix) => prefix + "." + tld
  }

  /** Classification loses only the leading "www." of a three-label entry, and drops exactly the entries with
      no dot and those whose scheme is not followed by "//". */
  lemma ClassifyKeeps(e: string)
    ensures var k := Classify(e);
            && (k == Dropped <==> if HasScheme(e) then !HasPrefix(e, "http://") && !HasPrefix(e, "https://")
                                  else '.' !in e)
            && (k != Dropped ==>
                  e == if k.Two? && |Split(e, '.')| == 3 then "www." + Rejoin(k) else Rejoin(k))
  {
    hide Split, LastIndexOf, Join;
    var parts := Split(e, '.');
    SplitCount(e, '.');
    if HasScheme(e) {
      assert HasPrefix(e, "http://") ==> e == "http://" + e[7..];
      assert HasPrefix(e, "https://") ==> e == "https://" + e[8..];
    } else if |parts| == 2 {
      TwoParts(e);
    } else if |parts| == 3 && HasPrefix(e, "www.") {
      ThreeParts(e);
    } else if |parts| > 1 {
      LastIndexSplit(e, '.');
    }
  }

  lemma TwoParts(e: string)
    requires |Split(e, '.')| == 2
    ensures e == Split(e, '.')[0] + "." + Split(e, '.')[1]
  {
    var parts := Split(e, '.');
    assert Join(parts[1..], ".") == parts[1];
  }

  lemma ThreeParts(e: string)
    requires |Split(e, '.')| == 3 && HasPrefix(e, "www.")
    ensures e == "www." + (Split(e, '.')[1] + "." + Split(e, '.')[2])
  {
    var parts := Split(e, '.');
    var tail := parts[1] + "." + parts[2];
    assert parts[1..][1..] == [parts[2]];
    assert Join(parts[1..], ".") == tail;
    assert e == parts[0] + "." + tail;
    IndexOfFirst(parts[0], '.', tail);
    IndexOfFirst("www", '.', e[4..]);
    assert e == "www" + "." + e[4..];
    assert |parts[0]| == 3;
    assert e[4..] == tail;
  }

  /** The strings a bucketed entry stands for, in terms of its bucket. */
  lemma KindListed(e: string, s: string)
    ensures var k := Classify(e);
            match k
            case Http(_) => Listed(e, s) <==> s == Rejoin(k)
            case Https(_) => Listed(e, s) <==> s == Rejoin(k)
            case Two(_, _) => Listed(e, s) <==> s == Rejoin(k) || s == "www." + Rejoin(k)
            case Long(_, _) => Listed(e, s) <==> s == Rejoin(k)
            case Dropped => !Listed(e, s)
  {
    ClassifyKeeps(e);
    SplitCount(e, '.');
    var k := Classify(e);
    if k.Two? && |Split(e, '.')| == 3 {
      assert "www." + s == e ==> s == e[4..];
      assert Rejoin(k) == e[4..];
    }
  }

  // ----- Buckets -----

  type Buckets = map<string, seq<string>>

  function Put(m: Buckets, k: string, v: string): Buckets {
    m[k := (if k in m then m[k] else []) + [v]]
  }

  function Kinds(es: seq<string>): seq<Kind> {
    seq(|es|, i requires 0 <= i < |es| => Classify(es[i]))
  }

  /** The state of the four collections after classifying `es`, in order. */
  datatype Sorted = Sorted(http: seq<string>, https: seq<string>, two: Buckets, long: Buckets) {
    function Add(k: Kind): Sorted {
      match k
      case Http(rest) => this.(http := http + [rest])
      case Https(rest) => this.(https := https + [rest])
      case Two(tld, name) => this.(two := Put(two, tld, name))
      case Long(tld, prefix) => this.(long := Put(long, tld, prefix))
      case Dropped => this
    }

    /** How often the collections hold what `k` describes. */
    function Held(k: Kind): nat {
      match k
      case Http(rest) => multiset(http)[rest]
      case Https(rest) => multiset(https)[rest]
      case Two(tld, name) => if tld in two then multiset(two[tld])[name] else 0
      case Long(tld, prefix) => if tld in long then multiset(long[tld])[prefix] else 0
      case Dropped => 0
    }
  }

  function SortEntries(es: seq<string>): Sorted {
    if es == [] then Sorted([], [], map[], map[])
    else SortEntries(es[..|es| - 1]).Add(Classify(es[|es| - 1]))
  }

  lemma AddHeld(st: Sorted, added: Kind, k: Kind)
    requires k != Dropped
    ensures st.Add(added).Held(k) == st.Held(k) + if added == k then 1 else 0
  {
    hide Put;
    match added
    case Http(rest) =>
    case Https(rest) =>
    case Two(tld, name) => PutCount(st.two, tld, name);
    case Long(tld, prefix) => PutCount(st.long, tld, prefix);
    case Dropped =>
  }

  lemma PutCount(m: Buckets, k: string, v: string)
    ensures k in Put(m, k, v) &&
              forall j :: j != k ==> (j in Put(m, k, v) <==> j in m) && (j in m ==> Put(m, k, v)[j] == m[j])
    ensures forall x :: multiset(Put(m, k, v)[k])[x] ==
              (if k in m then multiset(m[k])[x] else 0) + if x == v then 1 else 0
  {
  }

  lemma SortLast(init: seq<string>, e: string)
    ensures SortEntries(init + [e]) == SortEntries(init).Add(Classify(e))
    ensures multiset(Kinds(init + [e])) == multiset(Kinds(init)) + multiset{Classify(e)}
  {
    assert (init + [e])[..|init|] == init;
    assert Kinds(init + [e]) == Kinds(init) + [Classify(e)];
  }

  ghost predicate Conserved(st: Sorted, ks: multiset<Kind>) {
    forall k :: k != Dropped ==> st.Held(k) == ks[k]
  }

  lemma AddConserves(st: Sorted, ks: multiset<Kind>, added: Kind)
    requires Conserved(st, ks)
    ensures Conserved(st.Add(added), ks + multiset{added})
  {
    forall k | k != Dropped ensures st.Add(added).Held(k) == (ks + multiset{added})[k] {
      AddHeld(st, added, k);
    }
  }

  /** Every kept entry sits in exactly one place, as often as it was listed; nothing else is held. */
  lemma {:induction false} SortConserves(es: seq<string>)
    ensures Conserved(SortEntries(es), multiset(Kinds(es)))
  {
    if es == [] {
      assert Kinds(es) == [];
    } else {
      var init, e := es[..|es| - 1], es[|es| - 1];
      SortConserves(init);
      AddConserves(SortEntries(init), multiset(Kinds(init)), Classify(e));
      SortLast(init, e);
      assert es == init + [e];
    }
  }

  predicate NonEmptyBuckets(m: Buckets) {
    forall k :: k in m ==> m[k] != []
  }

  lemma {:induction false} SortNonEmpty(es: seq<string>)
    ensures NonEmptyBuckets(SortEntries(es).two) && NonEmptyBuckets(SortEntries(es).long)
  {
    if es != [] {
      SortNonEmpty(es[..|es| - 1]);
    }
  }

  /** Membership form of conservation. */
  lemma HeldListed(es: seq<string>, k: Kind)
    requires k != Dropped
    ensures SortEntries(es).Held(k) > 0 <==> exists e :: e in es && Classify(e) == k
  {
    SortConserves(es);
    var ks := Kinds(es);
    if k in ks {
      var i :| 0 <= i < |ks| && ks[i] == k;
      assert es[i] in es;
    }
    if e :| e in es && Classify(e) == k {
      var i :| 0 <= i < |es| && es[i] == e;
      assert ks[i] == k;
    }
  }

  /** `s` is some value of the buckets, joined with its key. */
  predicate InBuckets(m: Buckets, s: string) {
    exists k, v :: k in m && v in m[k] && s == v + "." + k
  }

  lemma InTwoBuckets(es: seq<string>, s: string)
    ensures InBuckets(SortEntries(es).two, s) <==> exists e :: e in es && Classify(e).Two? && s == Rejoin(Classify(e))
  {
    var m := SortEntries(es).two;
    if k, v :| k in m && v in m[k] && s == v + "." + k {
      HeldListed(es, Two(k, v));
    }
    if e :| e in es && Classify(e).Two? && s == Rejoin(Classify(e)) {
      HeldListed(es, Classify(e));
    }
  }

  lemma InLongBuckets(es: seq<string>, s: string)
    ensures InBuckets(SortEntries(es).long, s) <==> exists e :: e in es && Classify(e).Long? && s == Rejoin(Classify(e))
  {
    var m := SortEntries(es).long;
    if k, v :| k in m && v in m[k] && s == v + "." + k {
      HeldListed(es, Long(k, v));
    }
    if e :| e in es && Classify(e).Long? && s == Rejoin(Classify(e)) {
      HeldListed(es, Classify(e));
    }
  }
}
