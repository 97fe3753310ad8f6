/** The DNS rule of a row: the pattern made from the host of its URL. */
module HostRules {
  import opened Text
  import opened Options
  import opened Regex
  import opened RedirectPatterns

  function HostPattern(host: string): string {
    if ':' in host then
      var first := Split(host, ':')[0];
      if HasPrefix(first, "www.") && |Split(host, ':')| == 3 then Replace(EscapeDots(first), "www.", "(www\\\\.)?")
      else "(www\\.)?" + EscapeDots(first)
    else if HasPrefix(host, "www.") then EscapeDots(Replace(host, "www.", "(www.)?"))
    else "(www\\.)?" + EscapeDots(host)
  }

  /** The tree of a host whose every "www." has been made optional. */
  function OptionalWww(h: string): Cat
    decreases |h|
  {
    if HasPrefix(h, "www.") then Cons(WWW, OptionalWww(h[4..]))
    else if h == "" then Nil
    else Cons(Ordinary(h[0]), OptionalWww(h[1..]))
  }

  lemma {:induction false} OptionalWwwText(h: string)
    ensures PrintCat(OptionalWww(h)) == EscapeDots(Replace(h, "www.", "(www.)?"))
    decreases |h|
  {
    if HasPrefix(h, "www.") {
      OptionalWwwText(h[4..]);
      WwwText();
      EscapeCat("(www.)?", Replace(h[4..], "www.", "(www.)?"));
    } else if h != "" {
      OptionalWwwText(h[1..]);
      EscapeOne(h[0]);
      EscapeCat([h[0]], Replace(h[1..], "www.", "(www.)?"));
    }
  }

  lemma {:induction false} OptionalWwwWf(h: string)
    requires Plain(h)
    ensures WfCat(OptionalWww(h))
    decreases |h|
  {
    if HasPrefix(h, "www.") {
      WwwWf();
      OptionalWwwWf(h[4..]);
    } else if h != "" {
      assert h[0] in h;
      OptionalWwwWf(h[1..]);
    }
  }

  /** Dropping every "www." leaves a string that still matches. */
  lemma {:induction false} OptionalWwwDeleted(h: string)
    ensures InCat(OptionalWww(h), Replace(h, "www.", ""))
    decreases |h|
  {
    var r := Replace(h, "www.", "");
    if HasPrefix(h, "www.") {
      OptionalWwwDeleted(h[4..]);
      WwwMeans(OptionalWww(h[4..]), r);
      assert "" + Replace(h[4..], "www.", "") == Replace(h[4..], "www.", "");
    } else if h != "" {
      OptionalWwwDeleted(h[1..]);
      OrdinaryMeans(h[0], [h[0]]);
      InCons(Ordinary(h[0]), OptionalWww(h[1..]), [h[0]], Replace(h[1..], "www.", ""));
    }
  }

  lemma {:induction false} OptionalWwwAbsent(h: string)
    requires !Contains(h, "www.")
    ensures OptionalWww(h) == LitCat(h)
    decreases |h|
  {
    if h != "" {
      OptionalWwwAbsent(h[1..]);
    }
  }

  /** The optional prefix and a literal host accept the host and its "www." form. */
  lemma PrefixedLaw(h: string, text: string)
    requires Plain(h) && text == "(www\\.)?" + EscapeDots(h)
    ensures Parse(text).Some? && forall s :: Accepts(text, s) <==> s == h || s == "www." + h
  {
    hide Parse, InCat;
    var cat := Cons(WWW, LitCat(h));
    PrefixedTree(h, text);
    forall s ensures Accepts(text, s) <==> s == h || s == "www." + h {
      assert Accepts(text, s) <==> InCat(cat, s);
      WwwMeans(LitCat(h), s);
      LitCatMeans(h, s);
      if "www." <= s {
        LitCatMeans(h, s[4..]);
        assert s == "www." + s[4..];
      }
    }
  }

  lemma PrefixedTree(h: string, text: string)
    requires Plain(h) && text == "(www\\.)?" + EscapeDots(h)
    ensures Parse(text) == Some(One(Cons(WWW, LitCat(h))))
  {
    hide Parse, EscapeDots, LitCat;
    LitCatText(h);
    WwwText();
    WwwEscaped();
    WwwWf();
    PlainWf(h);
    ParseExactly(text, One(Cons(WWW, LitCat(h))));
  }

  lemma PlainWf(h: string)
    requires Plain(h)
    ensures WfCat(LitCat(h))
  {
    LitThenWf(h, Nil);
  }

  /** A host without port and without leading "www." is matched with and without it. */
  lemma BareHostLaw(h: string)
    requires Plain(h) && ':' !in h && !HasPrefix(h, "www.")
    ensures var text := HostPattern(h);
            Parse(text).Some? && forall s :: Accepts(text, s) <==> s == h || s == "www." + h
  {
    PrefixedLaw(h, HostPattern(h));
  }

  /** A leading "www." is normalised away exactly when there is no second one, and exactly then the pattern
      accepts the bare host and its "www." form and nothing else. */
  lemma WwwHostLaw(b: string)
    requires Plain(b) && ':' !in b
    ensures Parse(HostPattern("www." + b)).Some?
    ensures HostPattern("www." + b) == HostPattern(b) <==> !Contains(b, "www.")
    ensures (forall s :: Accepts(HostPattern("www." + b), s) <==> s == b || s == "www." + b) <==> !Contains(b, "www.")
  {
    var text := HostPattern("www." + b);
    WwwHostTree(b);
    if Contains(b, "www.") {
      var r := Replace(b, "www.", "");
      DeleteShortens(b, "www.");
      assert Accepts(text, r) && r != b && r != "www." + b;
      if HasPrefix(b, "www.") {
        assert text != HostPattern(b);
      } else {
        BareHostLaw(b);
        assert !Accepts(HostPattern(b), r);
      }
    } else {
      assert !HasPrefix(b, "www.");
      BareHostLaw(b);
    }
  }

  lemma WwwHostTree(b: string)
    requires Plain(b) && ':' !in b
    ensures var text := HostPattern("www." + b);
            && Parse(text) == Some(One(Cons(WWW, OptionalWww(b))))
            && Accepts(text, Replace(b, "www.", ""))
            && text == "(www\\.)?" + EscapeDots(Replace(b, "www.", "(www.)?"))
            && (!Contains(b, "www.") ==> text == "(www\\.)?" + EscapeDots(b))
  {
    var h := "www." + b;
    var cat := Cons(WWW, OptionalWww(b));
    assert h[4..] == b && HasPrefix(h, "www.");
    assert OptionalWww(h) == cat;
    OptionalWwwText(h);
    OptionalWwwText(b);
    WwwText();
    WwwEscaped();
    WwwWf();
    OptionalWwwWf(b);
    ParseExactly(HostPattern(h), One(cat));
    OptionalWwwDeleted(b);
    WwwMeans(OptionalWww(b), Replace(b, "www.", ""));
    if !Contains(b, "www.") {
      ReplaceAbsent(b, "www.", "(www.)?");
    }
  }

  /** Every dot has been escaped, so no "www." is left. */
  lemma {:induction false} DotsEscaped(h: string)
    ensures var t := EscapeDots(h); forall i :: 0 <= i < |t| && t[i] == '.' ==> i > 0 && t[i - 1] == '\\'
  {
    if h != "" {
      DotsEscaped(h[1..]);
      EscapeOne(h[0]);
      EscapeCat([h[0]], h[1..]);
      assert h == [h[0]] + h[1..];
    }
  }

  lemma {:induction false} NoWww(t: string)
    requires forall i :: 1 <= i < |t| && t[i] == '.' ==> t[i - 1] == '\\'
    ensures !Contains(t, "www.")
  {
    if t != "" {
      assert forall i :: 1 <= i < |t[1..]| ==> t[1..][i] == t[i + 1] && t[1..][i - 1] == t[i];
      NoWww(t[1..]);
      WwwStart(t);
    }
  }

  lemma WwwStart(t: string)
    ensures HasPrefix(t, "www.") ==> |t| > 3 && t[2] == 'w' && t[3] == '.'
  {
    if HasPrefix(t, "www.") {
      assert t[2] == "www."[2] && t[3] == "www."[3];
    }
  }

  /** The branch for a "www." name and two colons: the replacement finds nothing, so the name is matched as it is. */
  lemma WwwPort(h: string)
    requires Plain(h)
    ensures var text := Replace(EscapeDots(h), "www.", "(www\\\\.)?");
            Parse(text).Some? && forall s :: Accepts(text, s) <==> s == h
  {
    hide Parse, EscapeDots, Replace, InCat, LitCat, Contains;
    DotsEscaped(h);
    NoWww(EscapeDots(h));
    ReplaceAbsent(EscapeDots(h), "www.", "(www\\\\.)?");
    PlainParse(h);
    forall s ensures Accepts(EscapeDots(h), s) <==> s == h {
      LitCatMeans(h, s);
      assert Accepts(EscapeDots(h), s) <==> InCat(LitCat(h), s);
    }
  }

  lemma PlainParse(h: string)
    requires Plain(h)
    ensures Parse(EscapeDots(h)) == Some(One(LitCat(h)))
  {
    LitCatText(h);
    PlainWf(h);
    ParseExactly(EscapeDots(h), One(LitCat(h)));
  }

  /** With a port there is no normalisation. The name before the port is always matched; it is matched with an extra
      "www." unless it has one already and two colons follow. So the pattern of a "www." name never accepts the bare
      name. */
  lemma PortHostLaw(h: string, port: string)
    requires Plain(h) && ':' !in h
    ensures var text := HostPattern(h + ":" + port);
            && Parse(text).Some?
            && forall s :: Accepts(text, s) <==>
                           s == h || (s == "www." + h && !(HasPrefix(h, "www.") && |Split(port, ':')| == 2))
  {
    hide Parse, Accepts, EscapeDots, Replace, Plain;
    var host := h + ":" + port;
    var parts := [h] + Split(port, ':');
    assert parts[1..] == Split(port, ':');
    assert Join(parts, ":") == host;
    SplitJoin(parts, ':');
    assert host[|h|] == ':';
    if HasPrefix(h, "www.") && |Split(port, ':')| == 2 {
      WwwPort(h);
    } else {
      PrefixedLaw(h, HostPattern(host));
    }
  }
}
