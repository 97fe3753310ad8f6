/** Exactly which hosts the DNS pattern matches as meant. A host has no bar: a URL with one is refused before. */
module HostExact {
  import opened Text
  import opened Options
  import opened Regex
  import opened RegexCounts
  import opened RedirectPatterns
  import opened RedirectExact
  import opened HostRules

  // ----- A host behind the optional prefix -----

  lemma PrefixedExact(h: string, text: string)
    requires '|' !in h && text == "(www\\.)?" + EscapeDots(h)
    ensures AcceptsJust(text, "www." + h, h) <==> Plain(h)
  {
    hide EscapeDots, Parse, Accepts, Plain;
    if Plain(h) {
      PrefixedLaw(h, text);
    }
    if AcceptsJust(text, "www." + h, h) {
      EscapeCat("(www.)?", h);
      WwwEscaped();
      PrefixedOnly("(www.)?", h, "www." + h);
    }
  }

  lemma PrefixedOnly(pre: string, h: string, x: string)
    requires pre == "(www.)?" && x == "www." + h && '|' !in h && AcceptsJust(EscapeDots(pre + h), x, h)
    ensures Plain(h)
  {
    hide EscapeDots, AcceptsJust, Plain, Unescaped;
    assert '|' !in pre && |pre| == 7;
    PrefixCounts(pre);
    assert pre + h + "" == pre + h && pre + "" == pre;
    JustPlain(pre, h, "", x, h, 1, 1);
  }

  lemma PrefixCounts(pre: string)
    requires pre == "(www.)?"
    ensures multiset(pre)['('] == 1 && multiset(pre)[')'] == 1 && multiset(pre)['?'] == 1
    ensures Unescaped(EscapeDots(pre), '(') && Unescaped(EscapeDots(pre), '?')
  {
    OptionalPre(pre, "www.");
  }

  /** A host without port and leading "www." is matched with and without it, and nothing else is, if and only if it has
      no special character but dots. */
  lemma BareHostExact(h: string)
    requires ':' !in h && '|' !in h && !HasPrefix(h, "www.")
    ensures AcceptsJust(HostPattern(h), "www." + h, h) <==> Plain(h)
  {
    PrefixedExact(h, HostPattern(h));
  }

  // ----- A host with a port -----

  lemma PlainExact(h: string)
    requires '|' !in h
    ensures AcceptsJust(EscapeDots(h), h, h) <==> Plain(h)
  {
    hide EscapeDots, Parse, Accepts, Plain;
    if Plain(h) {
      WwwPort(h);
      WwwPortText(h);
    }
    if AcceptsJust(EscapeDots(h), h, h) {
      assert "" + h + "" == h && "" + "" == "";
      EscapeKeeps("", '(');
      EscapeKeeps("", '?');
      JustPlain("", h, "", h, h, 0, 0);
    }
  }

  lemma WwwPortText(h: string)
    ensures Replace(EscapeDots(h), "www.", "(www\\\\.)?") == EscapeDots(h)
  {
    hide EscapeDots, Replace, Contains;
    DotsEscaped(h);
    NoWww(EscapeDots(h));
    ReplaceAbsent(EscapeDots(h), "www.", "(www\\\\.)?");
  }

  lemma TwoColons(port: string)
    ensures |Split(port, ':')| == 2 <==> exists a, b :: port == a + ":" + b && ':' !in a && ':' !in b
  {
    var parts := Split(port, ':');
    if |parts| == 2 {
      assert parts[1..] == [parts[1]];
      assert port == parts[0] + ":" + parts[1];
    }
    if a, b :| port == a + ":" + b && ':' !in a && ':' !in b {
      assert [a, b][1..] == [b];
      assert Join([a, b], ":") == port;
      SplitJoin([a, b], ':');
    }
  }

  /** With a port, whatever follows the first colon, there is no normalisation: the name before it is matched as it is
      and with an extra "www.", unless it has one already and two colons follow, and nothing else is, if and only if it
      has no special character but dots. */
  lemma PortHostExact(h: string, port: string)
    requires ':' !in h && '|' !in h
    ensures var two := exists a, b :: port == a + ":" + b && ':' !in a && ':' !in b;
            AcceptsJust(HostPattern(h + ":" + port), if "www." <= h && two then h else "www." + h, h) <==> Plain(h)
  {
    hide Parse, Accepts, EscapeDots, Replace, Plain, AcceptsJust;
    TwoColons(port);
    var host := h + ":" + port;
    var parts := [h] + Split(port, ':');
    assert parts[1..] == Split(port, ':');
    assert Join(parts, ":") == host;
    SplitJoin(parts, ':');
    assert host[|h|] == ':';
    if HasPrefix(h, "www.") && |Split(port, ':')| == 2 {
      WwwPortText(h);
      PlainExact(h);
    } else {
      PrefixedExact(h, HostPattern(host));
    }
  }

  // ----- A host with a leading "www." -----

  /** How many occurrences of `w` are replaced. */
  function Found(h: string, w: string): nat
    requires w != ""
    decreases |h|
  {
    if HasPrefix(h, w) then 1 + Found(h[|w|..], w) else if h == "" then 0 else Found(h[1..], w)
  }

  lemma {:induction false} FoundContains(h: string, w: string)
    requires w != ""
    ensures Found(h, w) > 0 <==> Contains(h, w)
    decreases |h|
  {
    if h != "" && !HasPrefix(h, w) {
      FoundContains(h[1..], w);
    }
  }

  /** `r` is `h` with `n` pairs of parentheses and question marks added. */
  predicate Gains(r: string, h: string, n: nat) {
    |r| == |h| + 3 * n &&
    forall c :: multiset(r)[c] == multiset(h)[c] + if c == '(' || c == ')' || c == '?' then n else 0
  }

  lemma GainsThen(r: string, h: string, n: nat, r': string, h': string, n': nat)
    requires Gains(r, h, n) && Gains(r', h', n')
    ensures Gains(r + r', h + h', n + n')
  {
  }

  lemma {:induction false} FoundCounts(h: string, w: string, opt: string)
    requires w != "" && opt == ['('] + w + [')', '?']
    ensures Gains(Replace(h, w, opt), h, Found(h, w))
    decreases |h|
  {
    hide Gains, Replace, Found;
    ReplaceStep(h, w, opt);
    if HasPrefix(h, w) {
      FoundCounts(h[|w|..], w, opt);
      assert h == w + h[|w|..];
      OptCounts(w, opt);
      GainsThen(opt, w, 1, Replace(h[|w|..], w, opt), h[|w|..], Found(h[|w|..], w));
    } else if h != "" {
      FoundCounts(h[1..], w, opt);
      assert h == [h[0]] + h[1..];
      SameCounts([h[0]]);
      GainsThen([h[0]], [h[0]], 0, Replace(h[1..], w, opt), h[1..], Found(h[1..], w));
    } else {
      SameCounts(h);
    }
  }

  lemma ReplaceStep(h: string, w: string, opt: string)
    requires w != ""
    ensures HasPrefix(h, w) ==>
              Replace(h, w, opt) == opt + Replace(h[|w|..], w, opt) && Found(h, w) == 1 + Found(h[|w|..], w)
    ensures !HasPrefix(h, w) && h != "" ==>
              Replace(h, w, opt) == [h[0]] + Replace(h[1..], w, opt) && Found(h, w) == Found(h[1..], w)
    ensures !HasPrefix(h, w) && h == "" ==> Replace(h, w, opt) == "" && Found(h, w) == 0
  {
  }

  lemma SameCounts(h: string)
    ensures Gains(h, h, 0)
  {
  }

  lemma OptCounts(w: string, opt: string)
    requires opt == ['('] + w + [')', '?']
    ensures Gains(opt, w, 1)
  {
    assert multiset(opt) == multiset{'('} + multiset(w) + multiset{')', '?'};
  }

  lemma OptText()
    ensures "(www.)?" == ['('] + "www." + [')', '?']
  {
  }

  /** No parenthesis or question mark that was added is escaped. */
  lemma {:induction false} FoundUnescaped(h: string, c: char, www: string, opt: string)
    requires www == "www." && opt == "(www.)?" && (c == ')' || c == '?') && c !in h
    ensures var t := EscapeDots(Replace(h, www, opt)); Unescaped(t, c) && (t != "" ==> t[0] != c)
    decreases |h|
  {
    hide EscapeDots, Unescaped;
    if HasPrefix(h, www) {
      var rest := Replace(h[4..], www, opt);
      FoundUnescaped(h[4..], c, www, opt);
      EscapeCat(opt, rest);
      WwwEscaped();
      OptUnescaped(EscapeDots(opt), EscapeDots(rest), c);
    } else if h != "" {
      var rest := Replace(h[1..], www, opt);
      FoundUnescaped(h[1..], c, www, opt);
      EscapeCat([h[0]], rest);
      EscapeOne(h[0]);
      assert h[0] in h;
      OneUnescaped(EscapeDots([h[0]]), EscapeDots(rest), c);
    } else {
      EmptyUnescaped(c);
    }
  }

  lemma EmptyUnescaped(c: char)
    ensures EscapeDots("") == "" && Unescaped("", c)
  {
  }

  lemma OptUnescaped(opt: string, rest: string, c: char)
    requires opt == "(www\\.)?" && (c == ')' || c == '?') && Unescaped(rest, c) && (rest != "" ==> rest[0] != c)
    ensures Unescaped(opt + rest, c) && opt[0] != c
  {
  }

  lemma OneUnescaped(one: string, rest: string, c: char)
    requires one != "" && c !in one && Unescaped(rest, c) && (rest != "" ==> rest[0] != c)
    ensures Unescaped(one + rest, c) && (one + rest)[0] != c
  {
  }

  /** If the pattern of a "www." host is right, the host has no special character but dots. */
  lemma WwwOnly(h: string, b: string, raw: string, a: Alt)
    requires h == "www." + b && raw == Replace(h, "www.", "(www.)?") && '|' !in b
    requires WfAlt(a) && PrintAlt(a) == EscapeDots(raw) && forall s :: InAlt(a, s) <==> s == h || s == b
    ensures Plain(b)
  {
    hide EscapeDots, InAlt, PrintAlt, WfAlt, Replace, Found, Unescaped;
    OptText();
    FoundCounts(h, "www.", "(www.)?");
    var n := Found(h, "www.");
    assert multiset(raw)['|'] == 0;
    NoBars(a, raw);
    ExactLeaves(a, h, b);
    ExactCounts(raw, a, n, n);
    assert multiset(h)[')'] == 0 && multiset(h)['?'] == 0;
    FoundUnescaped(h, ')', "www.", "(www.)?");
    FoundUnescaped(h, '?', "www.", "(www.)?");
    AltUnescaped(a, ')');
    AltUnescaped(a, '?');
    forall c | c in b && c != '.' ensures !IsSpecial(c) {
      assert multiset(h)[c] > 0;
    }
  }

  /** A leading "www." gives the same pattern as the bare host if and only if no further "www." occurs. The pattern
      matches the bare host and its "www." form and nothing else if and only if, besides, the host has no special
      character but dots. */
  lemma WwwHostExact(b: string)
    requires ':' !in b && '|' !in b
    ensures HostPattern("www." + b) == HostPattern(b) <==> !Contains(b, "www.")
    ensures AcceptsJust(HostPattern("www." + b), "www." + b, b) <==> Plain(b) && !Contains(b, "www.")
  {
    WwwSame(b);
    var h, text := "www." + b, HostPattern("www." + b);
    assert text == EscapeDots(Replace(h, "www.", "(www.)?"));
    if AcceptsJust(text, h, b) {
      var a := Parse(text).value;
      ParseExactly(text, a);
      assert forall s :: InAlt(a, s) <==> Accepts(text, s);
      WwwOnly(h, b, Replace(h, "www.", "(www.)?"), a);
    }
    if Plain(b) {
      WwwHostLaw(b);
    }
  }

  lemma WwwSame(b: string)
    requires ':' !in b
    ensures HostPattern("www." + b) == HostPattern(b) <==> !Contains(b, "www.")
  {
    hide EscapeDots, Contains, Replace;
    HostTexts(b, "www.", "(www.)?");
    FoundContains(b, "www.");
    WwwLonger(b, "www.", "(www.)?");
    LongerDiffers(EscapeDots("(www.)?"), EscapeDots(Replace(b, "www.", "(www.)?")), EscapeDots(b));
  }

  lemma LongerDiffers(a: string, r: string, b: string)
    requires a != ""
    ensures a + r != r && (|r| != |b| ==> a + r != a + b)
  {
    assert |a + r| == |a| + |r| && |a + b| == |a| + |b|;
  }

  lemma HostTexts(b: string, www: string, opt: string)
    requires ':' !in b && www == "www." && opt == "(www.)?"
    ensures HostPattern(www + b) == EscapeDots(opt) + EscapeDots(Replace(b, www, opt))
    ensures HostPattern(b) ==
      if HasPrefix(b, www) then EscapeDots(Replace(b, www, opt)) else EscapeDots(opt) + EscapeDots(b)
  {
    hide EscapeDots;
    WwwReplaced(b);
    EscapeCat(opt, Replace(b, www, opt));
    WwwEscaped();
    assert (www + b)[..4] == www;
  }

  lemma WwwLonger(b: string, www: string, opt: string)
    requires www == "www." && opt == "(www.)?"
    ensures EscapeDots(opt) != ""
    ensures |EscapeDots(Replace(b, www, opt))| == |EscapeDots(b)| + 3 * Found(b, www)
    ensures Found(b, www) == 0 ==> Replace(b, www, opt) == b
  {
    hide EscapeDots, Replace;
    OptText();
    FoundCounts(b, www, opt);
    EscapeCounts(Replace(b, www, opt));
    EscapeCounts(b);
    WwwEscaped();
    FoundContains(b, www);
    if Found(b, www) == 0 {
      ReplaceAbsent(b, www, opt);
    }
  }

  lemma WwwReplaced(b: string)
    ensures Replace("www." + b, "www.", "(www.)?") == "(www.)?" + Replace(b, "www.", "(www.)?")
  {
    assert ("www." + b)[4..] == b && HasPrefix("www." + b, "www.");
  }
}
