/** What happens to entries with a special character that the compiler does not escape: a URL with a query. */
module RedirectSpecials {
  import opened Text
  import opened Options
  import opened Regex
  import opened RedirectEntries
  import opened RedirectPatterns
  import opened RedirectLaws

  /** `w`, then `c` or nothing, then `v`. */
  function QueryCat(w: string, c: char, v: string): Cat {
    LitThen(w, Cons(Piece(Ordinary(c).atom, true), LitCat(v)))
  }

  lemma QueryText(w: string, c: char, v: string)
    ensures PrintCat(QueryCat(w, c, v)) == EscapeDots(w + [c] + "?" + v)
  {
    hide EscapeDots, LitThen, LitCat;
    LitThenText(w, Cons(Piece(Ordinary(c).atom, true), LitCat(v)));
    LitCatText(v);
    EscapeOne(c);
    EscapeOne('?');
    EscapeCat(w + [c] + "?", v);
    EscapeCat(w + [c], "?");
    EscapeCat(w, [c]);
  }

  lemma QueryMeans(w: string, c: char, v: string, s: string)
    ensures InCat(QueryCat(w, c, v), s) <==> s == w + v || s == w + [c] + v
  {
    hide InCat, LitThen;
    var rest := Cons(Piece(Ordinary(c).atom, true), LitCat(v));
    LitThenMeans(w, rest, s);
    if w <= s {
      OptionalMeans(c, v, s[|w|..]);
      assert s == w + s[|w|..];
    }
  }

  lemma OptionalMeans(c: char, v: string, s: string)
    ensures InCat(Cons(Piece(Ordinary(c).atom, true), LitCat(v)), s) <==> s == v || s == [c] + v
  {
    var p := Piece(Ordinary(c).atom, true);
    forall i | 0 <= i <= |s| ensures InPiece(p, s[..i]) && InCat(LitCat(v), s[i..]) <==>
                                     ((i == 0 && s == v) || (i == 1 && s == [c] + v)) {
      LitCatMeans(v, s[i..]);
      if i == 1 {
        assert s == [s[0]] + s[1..];
      }
    }
    if s == v {
      assert InPiece(p, s[..0]) && InCat(LitCat(v), s[0..]);
    }
    if s == [c] + v {
      assert InPiece(p, s[..1]) && InCat(LitCat(v), s[1..]);
    }
  }

  lemma QueryParses(scheme: string, w: string, c: char, v: string)
    requires Plain(scheme) && Plain(w) && Plain([c]) && Plain(v)
    ensures Parse(SchemeText(scheme, [w + [c] + "?" + v])) == Some(One(LitThen(scheme, Single(One(QueryCat(w, c, v))))))
  {
    var e := w + [c] + "?" + v;
    var alt := One(QueryCat(w, c, v));
    QueryText(w, c, v);
    SingleText(alt);
    LitThenText(scheme, Single(alt));
    Parens(e);
    EscapeCat(scheme, "(" + e + ")");
    assert scheme + "(" + e + ")" == scheme + ("(" + e + ")");
    LitThenWf(v, Nil);
    assert c in [c];
    LitThenWf(w, Cons(Piece(Ordinary(c).atom, true), LitCat(v)));
    LitThenWf(scheme, Single(alt));
    ParseExactly(SchemeText(scheme, [e]), One(LitThen(scheme, Single(alt))));
  }

  /** The question mark of a query makes the character before it optional, and is itself never matched: the rule of
      such an entry accepts exactly the entry without the mark, with and without that character. */
  lemma QueryLaw(w: string, c: char, v: string)
    requires Plain(w) && Plain([c]) && Plain(v)
    ensures var text := SchemeText("http://", [w + [c] + "?" + v]);
            && Parse(text).Some?
            && (forall s :: Accepts(text, s) <==> s == "http://" + (w + v) || s == "http://" + (w + [c] + v))
            && !Accepts(text, "http://" + (w + [c] + "?" + v))
  {
    SchemeQuery("http://", w, c, v);
  }

  lemma SchemeQuery(scheme: string, w: string, c: char, v: string)
    requires Plain(scheme) && Plain(w) && Plain([c]) && Plain(v)
    ensures var text := SchemeText(scheme, [w + [c] + "?" + v]);
            && Parse(text).Some?
            && (forall s :: Accepts(text, s) <==> s == scheme + (w + v) || s == scheme + (w + [c] + v))
            && !Accepts(text, scheme + (w + [c] + "?" + v))
  {
    var e := w + [c] + "?" + v;
    var text := SchemeText(scheme, [e]);
    QueryParses(scheme, w, c, v);
    forall s ensures Accepts(text, s) <==> s == scheme + (w + v) || s == scheme + (w + [c] + v) {
      LitThenMeans(scheme, Single(One(QueryCat(w, c, v))), s);
      if scheme <= s {
        SingleMeans(One(QueryCat(w, c, v)), s[|scheme|..]);
        QueryMeans(w, c, v, s[|scheme|..]);
        assert s == scheme + s[|scheme|..];
      }
    }
    assert |scheme + e| > |scheme + (w + [c] + v)| && |scheme + e| > |scheme + (w + v)|;
  }

  /** So a row that lists just one URL with a query does not redirect it. */
  lemma QueryGap(row: Row, w: string, c: char, v: string)
    requires Plain(w) && Plain([c]) && Plain(v) && row.redirectUrl == "http://" + (w + [c] + "?" + v)
    requires '|' !in row.redirectUrl
    ensures Entries(row) == [row.redirectUrl] && Listed(row.redirectUrl, row.redirectUrl)
    ensures IsOrder([], SortEntries(Entries(row)).two) && IsOrder([], SortEntries(Entries(row)).long)
    ensures !Redirects(RowRedirects(row, [], []), row.url, row.redirectUrl)
  {
    var rest := w + [c] + "?" + v;
    var e := row.redirectUrl;
    assert Classify(e) == Http(rest);
    EntryAlone(e);
    QueryLaw(w, c, v);
    var text := SchemeText("http://", [rest]);
    assert HttpBody([rest]) == rest != "";
    assert HttpPattern([rest]) == text;
    RuleMeans(text, row.url, e);
    assert RowRedirects(row, [], []) == Rule(text, row.url);
  }
}
