/** The functions of Go's `strings` package that the redirect-rule compiler calls. */
module Text {

  predicate HasPrefix(s: string, prefix: string) {
    prefix <= s
  }

  /** `strings.Contains`: some suffix of `s` starts with `t`. */
  predicate Contains(s: string, t: string) {
    HasPrefix(s, t) || (s != "" && Contains(s[1..], t))
  }

  /** `strings.Join`. */
  function Join(parts: seq<string>, sep: string): string {
    if |parts| == 0 then ""
    else if |parts| == 1 then parts[0]
    else parts[0] + sep + Join(parts[1..], sep)
  }

  /** The position of the first `c`, or `|s|` when there is none. */
  function IndexOf(s: string, c: char): (i: nat)
    ensures i <= |s|
    ensures c !in s[..i]
    ensures i < |s| ==> s[i] == c
  {
    if s == "" || s[0] == c then 0
    else
      var j := IndexOf(s[1..], c);
      assert s[..1 + j] == [s[0]] + s[1..][..j];
      1 + j
  }

  /** `strings.LastIndex` of a one-character string: -1 when absent. */
  function LastIndexOf(s: string, c: char): (i: int)
    ensures -1 <= i < |s|
    ensures i >= 0 ==> s[i] == c
    ensures c !in s[i + 1..]
  {
    if s == "" then -1
    else if s[|s| - 1] == c then |s| - 1
    else LastIndexOf(s[..|s| - 1], c)
  }

  /** `strings.Split` with a one-character separator: what `Join` undoes, in pieces without the separator. */
  function Split(s: string, c: char): (parts: seq<string>)
    ensures |parts| >= 1
    ensures Join(parts, [c]) == s
    ensures forall p :: p in parts ==> c !in p
    decreases |s|
  {
    var i := IndexOf(s, c);
    if i == |s| then
      assert s == s[..i];
      [s]
    else
      var rest := Split(s[i + 1..], c);
      assert s == s[..i] + [c] + s[i + 1..];
      assert ([s[..i]] + rest)[1..] == rest;
      [s[..i]] + rest
  }

  lemma IndexOfFirst(p: string, c: char, rest: string)
    requires c !in p
    ensures IndexOf(p + [c] + rest, c) == |p|
  {
    var s := p + [c] + rest;
    var i := IndexOf(s, c);
    assert s[|p|] == c;
    assert forall j :: 0 <= j < |p| ==> s[j] == p[j];
    assert forall j :: 0 <= j < i ==> s[..i][j] == s[j];
  }

  /** `Split` is the only way to cut a string into pieces without the separator. */
  lemma {:induction false} SplitJoin(parts: seq<string>, c: char)
    requires |parts| >= 1
    requires forall p :: p in parts ==> c !in p
    ensures Split(Join(parts, [c]), c) == parts
  {
    assert parts[0] in parts;
    if |parts| == 1 {
      assert IndexOf(parts[0], c) == |parts[0]|;
    } else {
      var rest := Join(parts[1..], [c]);
      var s := Join(parts, [c]);
      assert s == parts[0] + [c] + rest;
      IndexOfFirst(parts[0], c, rest);
      assert s[..|parts[0]|] == parts[0];
      assert s[|parts[0]| + 1..] == rest;
      SplitJoin(parts[1..], c);
      assert parts == [parts[0]] + parts[1..];
    }
  }

  /** More than one piece exactly when the separator occurs: the compiler's test for an alternation. */
  lemma SplitCount(s: string, c: char)
    ensures |Split(s, c)| > 1 <==> c in s
  {
    var i := IndexOf(s, c);
    if i == |s| {
      assert s == s[..i];
    } else {
      assert s[i] == c;
    }
  }

  lemma {:induction false} LastIndexOfLast(head: string, c: char, last: string)
    requires c !in last
    ensures var s := head + [c] + last; LastIndexOf(s, c) == |head| && s[..|head|] == head && s[|head| + 1..] == last
    decreases |last|
  {
    var s := head + [c] + last;
    if last != "" {
      LastIndexOfLast(head, c, last[..|last| - 1]);
      assert s[..|s| - 1] == head + [c] + last[..|last| - 1];
    }
  }

  /** Cutting at the last separator keeps all pieces but the last. */
  lemma {:induction false} LastIndexSplit(s: string, c: char)
    requires c in s
    ensures var parts := Split(s, c);
            var i := LastIndexOf(s, c);
            |parts| > 1 && i >= 0 && s[i + 1..] == parts[|parts| - 1] && s == s[..i] + [c] + parts[|parts| - 1]
  {
    SplitCount(s, c);
    var parts := Split(s, c);
    var last := parts[|parts| - 1];
    JoinLast(parts, [c]);
    var head := Join(parts[..|parts| - 1], [c]);
    assert s == head + [c] + last;
    var i := LastIndexOf(s, c);
    LastIndexOfLast(head, c, last);
  }

  lemma {:induction false} JoinLast(parts: seq<string>, sep: string)
    requires |parts| > 1
    ensures Join(parts, sep) == Join(parts[..|parts| - 1], sep) + sep + parts[|parts| - 1]
  {
    var n := |parts|;
    if n == 2 {
      assert parts[1..] == [parts[1]];
      assert parts[..1] == [parts[0]];
    } else {
      JoinLast(parts[1..], sep);
      assert parts[1..][..n - 2] == parts[..n - 1][1..];
      var mid := Join(parts[1..][..n - 2], sep);
      assert Join(parts[1..], sep) == mid + sep + parts[n - 1];
      assert Join(parts[..n - 1], sep) == parts[0] + sep + mid;
      assert parts[0] + sep + (mid + sep + parts[n - 1]) == parts[0] + sep + mid + sep + parts[n - 1];
    }
  }

  lemma JoinContains(parts: seq<string>, c: char)
    requires |parts| > 1
    ensures c in Join(parts, [c])
  {
    assert Join(parts, [c])[|parts[0]|] == c;
  }

  /** `strings.Replace(s, t, u, -1)`: every occurrence, left to right, without overlap. */
  function Replace(s: string, t: string, u: string): string
    requires |t| > 0
    decreases |s|
  {
    if HasPrefix(s, t) then u + Replace(s[|t|..], t, u)
    else if s == "" then ""
    else [s[0]] + Replace(s[1..], t, u)
  }

  /** Replacing a single character works piece by piece. */
  lemma {:induction false} ReplaceCat(a: string, b: string, c: char, u: string)
    ensures Replace(a + b, [c], u) == Replace(a, [c], u) + Replace(b, [c], u)
    decreases |a|
  {
    if a == "" {
      assert a + b == b;
    } else {
      var s := a + b;
      assert s[..1] == a[..1];
      assert s[1..] == a[1..] + b;
      ReplaceCat(a[1..], b, c, u);
    }
  }

  /** With no occurrence, replacement changes nothing. */
  lemma {:induction false} ReplaceAbsent(s: string, t: string, u: string)
    requires |t| > 0 && !Contains(s, t)
    ensures Replace(s, t, u) == s
    decreases |s|
  {
    if s != "" {
      ReplaceAbsent(s[1..], t, u);
      assert s == [s[0]] + s[1..];
    }
  }

  /** Deleting the occurrences shortens the string when there is one. */
  lemma {:induction false} DeleteShortens(s: string, t: string)
    requires |t| > 0
    ensures |Replace(s, t, "")| <= |s|
    ensures Contains(s, t) ==> |Replace(s, t, "")| < |s|
    decreases |s|
  {
    if HasPrefix(s, t) {
      DeleteShortens(s[|t|..], t);
    } else if s != "" {
      DeleteShortens(s[1..], t);
    }
  }
}
