/** public/app.js: the static admin page's helpers, `getStockClass` and
    `escapeHtml`. */
module PublicApp {
  import opened Wrappers
  import Text

  /** `getStockClass(stock)`: the CSS class of a stock figure. */
  function GetStockClass(stock: int): (r: string)
    ensures r == "stock-out" <==> stock == 0
    ensures r == "stock-low" <==> stock != 0 && stock < 5
    ensures r == "" <==> stock >= 5
  {
    if stock == 0 then "stock-out"
    else if stock < 5 then "stock-low"
    else ""
  }

  // ---------------------------------------------------------------------------
  // escapeHtml

  /** The five characters `escapeHtml` rewrites. */
  predicate Special(c: char) {
    c == '&' || c == '<' || c == '>' || c == '"' || c == '\''
  }

  /** What one input character becomes. */
  function Entity(c: char): string {
    if c == '&' then "&amp;"
    else if c == '<' then "&lt;"
    else if c == '>' then "&gt;"
    else if c == '"' then "&quot;"
    else if c == '\'' then "&#039;"
    else [c]
  }

  /** The reference reading: each character replaced by its entity in one pass. */
  function EscapeEach(s: string): (r: string)
    ensures |r| >= |s|
  {
    if |s| == 0 then "" else Entity(s[0]) + EscapeEach(s[1..])
  }

  /** The five chained `.replace(/x/g, ...)` calls, '&' first. */
  function Chain(s: string): string {
    var s1 := Text.ReplaceAll(s, '&', "&amp;");
    var s2 := Text.ReplaceAll(s1, '<', "&lt;");
    var s3 := Text.ReplaceAll(s2, '>', "&gt;");
    var s4 := Text.ReplaceAll(s3, '"', "&quot;");
    Text.ReplaceAll(s4, '\'', "&#039;")
  }

  /** `escapeHtml(text)`: a falsy argument gives the empty string. */
  function EscapeHtml(text: Option<string>): (r: string)
    ensures text.None? || text.value == "" ==> r == ""
    ensures text.Some? ==> r == EscapeEach(text.value)
    ensures forall i :: 0 <= i < |r| ==> r[i] != '<' && r[i] != '>' && r[i] != '"' && r[i] != '\''
  {
    if text.None? || text.value == "" then ""
    else
      ChainIsEachPass(text.value);
      EscapeEachClean(text.value);
      Chain(text.value)
  }

  lemma ChainAppend(a: string, b: string)
    ensures Chain(a + b) == Chain(a) + Chain(b)
  {
    var a1, b1 := Text.ReplaceAll(a, '&', "&amp;"), Text.ReplaceAll(b, '&', "&amp;");
    Text.ReplaceAllAppend(a, b, '&', "&amp;");
    var a2, b2 := Text.ReplaceAll(a1, '<', "&lt;"), Text.ReplaceAll(b1, '<', "&lt;");
    Text.ReplaceAllAppend(a1, b1, '<', "&lt;");
    var a3, b3 := Text.ReplaceAll(a2, '>', "&gt;"), Text.ReplaceAll(b2, '>', "&gt;");
    Text.ReplaceAllAppend(a2, b2, '>', "&gt;");
    var a4, b4 := Text.ReplaceAll(a3, '"', "&quot;"), Text.ReplaceAll(b3, '"', "&quot;");
    Text.ReplaceAllAppend(a3, b3, '"', "&quot;");
    Text.ReplaceAllAppend(a4, b4, '\'', "&#039;");
  }

  lemma ReplaceOne(c: char, d: char, rep: string)
    ensures Text.ReplaceAll([c], d, rep) == if c == d then rep else [c]
  {
    assert [c][1..] == "";
  }

  /** The later replaces leave a string alone when it holds none of their characters. */
  lemma ChainTail(s1: string)
    requires '<' !in s1 && '>' !in s1 && '"' !in s1 && '\'' !in s1
    ensures Text.ReplaceAll(Text.ReplaceAll(Text.ReplaceAll(Text.ReplaceAll(s1, '<', "&lt;"), '>', "&gt;"), '"', "&quot;"), '\'', "&#039;") == s1
  {
  }

  /** On one character the chain produces that character's entity: the
      entities themselves hold none of the later-replaced characters. */
  lemma ChainChar(c: char)
    ensures Chain([c]) == Entity(c)
  {
    ReplaceOne(c, '&', "&amp;");
    if c == '&' {
      ChainTail("&amp;");
    } else if c == '<' {
      ChainLt();
    } else if c == '>' {
      ChainGt();
    } else {
      ChainPlain(c);
    }
  }

  lemma ChainLt()
    ensures Chain("<") == "&lt;"
  {
    ReplaceOne('<', '&', "&amp;");
    ReplaceOne('<', '<', "&lt;");
    var s2 := "&lt;";
    assert Text.ReplaceAll(Text.ReplaceAll(Text.ReplaceAll(s2, '>', "&gt;"), '"', "&quot;"), '\'', "&#039;") == s2;
  }

  lemma ChainGt()
    ensures Chain(">") == "&gt;"
  {
    ReplaceOne('>', '&', "&amp;");
    ReplaceOne('>', '<', "&lt;");
    ReplaceOne('>', '>', "&gt;");
    var s3 := "&gt;";
    assert Text.ReplaceAll(Text.ReplaceAll(s3, '"', "&quot;"), '\'', "&#039;") == s3;
  }

  lemma ChainPlain(c: char)
    requires c != '&' && c != '<' && c != '>'
    ensures Chain([c]) == Entity(c)
  {
    ReplaceOne(c, '&', "&amp;");
    ReplaceOne(c, '<', "&lt;");
    ReplaceOne(c, '>', "&gt;");
    ReplaceOne(c, '"', "&quot;");
    ReplaceOne(c, '\'', "&#039;");
  }

  /** The chained replaces equal the one-pass reading on every string. */
  lemma {:induction false} ChainIsEachPass(s: string)
    ensures Chain(s) == EscapeEach(s)
  {
    if |s| > 0 {
      assert s == [s[0]] + s[1..];
      ChainAppend([s[0]], s[1..]);
      ChainChar(s[0]);
      ChainIsEachPass(s[1..]);
    }
  }

  /** No '<', '>', '"' or "'" survives. */
  lemma {:induction false} EscapeEachClean(s: string)
    ensures forall i :: 0 <= i < |EscapeEach(s)| ==>
              var c := EscapeEach(s)[i]; c != '<' && c != '>' && c != '"' && c != '\''
  {
    if |s| > 0 {
      EscapeEachClean(s[1..]);
      var e := Entity(s[0]);
      var r := EscapeEach(s);
      assert r == e + EscapeEach(s[1..]);
      forall i | 0 <= i < |r| ensures r[i] != '<' && r[i] != '>' && r[i] != '"' && r[i] != '\'' {
        if i >= |e| {
          assert r[i] == EscapeEach(s[1..])[i - |e|];
        }
      }
    }
  }

  // ---------------------------------------------------------------------------
  // decoding: the escaping loses nothing

  /** Reads the five entities back; any other character stands for itself. */
  function Unescape(t: string): string
    decreases |t|
  {
    if |t| == 0 then ""
    else if |t| >= 5 && t[..5] == "&amp;" then "&" + Unescape(t[5..])
    else if |t| >= 4 && t[..4] == "&lt;" then "<" + Unescape(t[4..])
    else if |t| >= 4 && t[..4] == "&gt;" then ">" + Unescape(t[4..])
    else if |t| >= 6 && t[..6] == "&quot;" then "\"" + Unescape(t[6..])
    else if |t| >= 6 && t[..6] == "&#039;" then "'" + Unescape(t[6..])
    else [t[0]] + Unescape(t[1..])
  }

  lemma UnescapeAmp(rest: string)
    ensures Unescape("&amp;" + rest) == "&" + Unescape(rest)
  {
    var t := "&amp;" + rest;
    assert t[..5] == "&amp;" && t[5..] == rest;
  }

  lemma UnescapeLt(rest: string)
    ensures Unescape("&lt;" + rest) == "<" + Unescape(rest)
  {
    var t := "&lt;" + rest;
    assert t[1] == 'l' && t[..4] == "&lt;" && t[4..] == rest;
  }

  lemma UnescapeGt(rest: string)
    ensures Unescape("&gt;" + rest) == ">" + Unescape(rest)
  {
    var t := "&gt;" + rest;
    assert t[1] == 'g' && t[..4] == "&gt;" && t[4..] == rest;
  }

  lemma UnescapeQuot(rest: string)
    ensures Unescape("&quot;" + rest) == "\"" + Unescape(rest)
  {
    var t := "&quot;" + rest;
    assert t[1] == 'q' && t[..6] == "&quot;" && t[6..] == rest;
  }

  lemma UnescapeApos(rest: string)
    ensures Unescape("&#039;" + rest) == "'" + Unescape(rest)
  {
    var t := "&#039;" + rest;
    assert t[1] == '#' && t[..6] == "&#039;" && t[6..] == rest;
  }

  /** Each entity, and each ordinary character, reads back as the character it
      stands for. */
  lemma UnescapeEntity(c: char, rest: string)
    ensures Unescape(Entity(c) + rest) == [c] + Unescape(rest)
  {
    if c == '&' {
      UnescapeAmp(rest);
    } else if c == '<' {
      UnescapeLt(rest);
    } else if c == '>' {
      UnescapeGt(rest);
    } else if c == '"' {
      UnescapeQuot(rest);
    } else if c == '\'' {
      UnescapeApos(rest);
    } else {
      var t := [c] + rest;
      assert t[0] == c && t[1..] == rest;
    }
  }

  /** Decoding undoes escaping: `escapeHtml` is injective on truthy strings. */
  lemma {:induction false} UnescapeEscape(s: string)
    ensures Unescape(EscapeEach(s)) == s
  {
    if |s| > 0 {
      UnescapeEscape(s[1..]);
      UnescapeEntity(s[0], EscapeEach(s[1..]));
      assert [s[0]] + s[1..] == s;
    }
  }

  /** One step of the one-pass encoding. */
  lemma EscapeEachCons(c: char, t: string)
    ensures EscapeEach([c] + t) == Entity(c) + EscapeEach(t)
  {
    assert ([c] + t)[0] == c && ([c] + t)[1..] == t;
  }

  /** Escaping twice re-escapes the '&' of each entity. */
  lemma EscapeNotIdempotent()
    ensures EscapeHtml(Some("&")) == "&amp;"
    ensures EscapeHtml(Some(EscapeHtml(Some("&")))) == "&amp;amp;"
  {
    assert EscapeEach("&") == "&amp;" by {
      EscapeEachCons('&', "");
      assert "&" == ['&'] + "";
    }
    assert EscapeEach(";") == ";" by {
      EscapeEachCons(';', "");
      assert ";" == [';'] + "";
    }
    assert EscapeEach("p;") == "p;" by {
      EscapeEachCons('p', ";");
      assert "p;" == ['p'] + ";";
    }
    assert EscapeEach("mp;") == "mp;" by {
      EscapeEachCons('m', "p;");
      assert "mp;" == ['m'] + "p;";
    }
    assert EscapeEach("amp;") == "amp;" by {
      EscapeEachCons('a', "mp;");
      assert "amp;" == ['a'] + "mp;";
    }
    assert EscapeEach("&amp;") == "&amp;amp;" by {
      EscapeEachCons('&', "amp;");
      assert "&amp;" == ['&'] + "amp;";
    }
  }
}
