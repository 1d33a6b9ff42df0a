/** The escaper, the scanner and the reader of .env values agree. */
module EnvRoundTrip {
  import opened Wrappers
  import opened EnvText

  // ----- the replacement chain is one pass over normalised text -----

  /** The chain after the backslashes were doubled and CRLF was replaced. */
  function Finish(b: string): string {
    var c := Replace(b, "\r", "\n");
    var d := Replace(c, "\n", "\\n");
    Replace(d, "\"", "\\\"")
  }

  lemma FinishSplits(a: string, b: string)
    ensures Finish(a + b) == Finish(a) + Finish(b)
  {
    ReplaceSplits(a, b, '\r', "\n");
    var a1, b1 := Replace(a, "\r", "\n"), Replace(b, "\r", "\n");
    ReplaceSplits(a1, b1, '\n', "\\n");
    ReplaceSplits(Replace(a1, "\n", "\\n"), Replace(b1, "\n", "\\n"), '"', "\\\"");
  }

  lemma FinishChar(c: char)
    requires c != '\\'
    ensures Finish([c]) == EscapeChar(if c == '\r' then '\n' else c)
  {
    SingleReplace(c, '\r', "\n");
    var c1 := if c == '\r' then '\n' else c;
    SingleReplace(c1, '\n', "\\n");
    if c1 == '\n' {
      ReplaceAbsent("\\n", "\"", "\\\"");
    } else {
      SingleReplace(c1, '"', "\\\"");
    }
  }

  lemma FinishBackslashes()
    ensures Finish("\\\\") == "\\\\"
  {
    ReplaceAbsent("\\\\", "\r", "\n");
    ReplaceAbsent("\\\\", "\n", "\\n");
    ReplaceAbsent("\\\\", "\"", "\\\"");
  }

  /** Doubling backslashes neither makes nor breaks a CRLF at the front. */
  lemma DoublingKeepsFront(v: string)
    ensures StartsWith(Replace(v, "\\", "\\\\"), "\n") <==> StartsWith(v, "\n")
  {}

  lemma {:induction false} EscapedIsOnePass(v: string)
    ensures Escaped(v) == Escape(OnePass(v))
  {
    var a := Replace(v, "\\", "\\\\");
    if v == "" {
    } else if StartsWith(v, "\r\n") {
      var rest := Replace(v[2..], "\\", "\\\\");
      assert v == "\r\n" + v[2..];
      ReplaceSplits("\r\n", v[2..], '\\', "\\\\");
      ReplaceAbsent("\r\n", "\\", "\\\\");
      assert a == "\r\n" + rest && a[2..] == rest;
      assert Replace(a, "\r\n", "\n") == "\n" + Replace(rest, "\r\n", "\n");
      FinishSplits("\n", Replace(rest, "\r\n", "\n"));
      FinishChar('\n');
      EscapedIsOnePass(v[2..]);
      assert ("\n" + OnePass(v[2..]))[1..] == OnePass(v[2..]);
    } else {
      var rest := Replace(v[1..], "\\", "\\\\");
      assert v == [v[0]] + v[1..];
      ReplaceSplits([v[0]], v[1..], '\\', "\\\\");
      SingleReplace(v[0], '\\', "\\\\");
      var head := if v[0] == '\\' then "\\\\" else [v[0]];
      assert a == head + rest;
      EscapeHead(v, head, rest);
      EscapedIsOnePass(v[1..]);
      var first := if v[0] == '\r' then '\n' else v[0];
      assert OnePass(v) == [first] + OnePass(v[1..]);
      assert ([first] + OnePass(v[1..]))[1..] == OnePass(v[1..]);
    }
  }

  lemma CrlfFront(v: string)
    requires v != "" && v[0] == '\r'
    ensures StartsWith(v, "\r\n") <==> StartsWith(v[1..], "\n")
  {
    if StartsWith(v[1..], "\n") { assert v[1] == v[1..][0]; }
  }

  /** One ordinary character goes through the rest of the chain on its own. */
  lemma EscapeHead(v: string, head: string, rest: string)
    requires v != "" && !StartsWith(v, "\r\n") && rest == Replace(v[1..], "\\", "\\\\")
    requires head == if v[0] == '\\' then "\\\\" else [v[0]]
    ensures Finish(Replace(head + rest, "\r\n", "\n"))
            == EscapeChar(if v[0] == '\r' then '\n' else v[0]) + Finish(Replace(rest, "\r\n", "\n"))
  {
    var b := Replace(rest, "\r\n", "\n");
    if v[0] == '\r' {
      DoublingKeepsFront(v[1..]);
      CrlfFront(v);
      CrlfFront(head + rest);
      assert (head + rest)[1..] == rest;
      assert (head + rest)[1..] == rest && Replace(head + rest, "\r\n", "\n") == "\r" + b;
    } else {
      CrlfSkipsPrefix(head, rest);
    }
    FinishSplits(head, b);
    if v[0] == '\\' { FinishBackslashes(); } else { FinishChar(v[0]); }
  }

  lemma EscapedIsEscape(v: string)
    ensures Escaped(v) == Escape(NormaliseNewlines(v))
  {
    NormaliseIsOnePass(v);
    EscapedIsOnePass(v);
  }

  // ----- reading back -----

  lemma {:induction false} UnescapeEscape(s: string)
    ensures Unescape(Escape(s)) == s
  {
    if s != "" {
      var e := Escape(s);
      UnescapeEscape(s[1..]);
      if |EscapeChar(s[0])| == 2 {
        assert e[2..] == Escape(s[1..]);
      } else {
        assert e[1..] == Escape(s[1..]);
      }
    }
  }

  /** Scanning escaped text passes over it and stops at the quote behind it. */
  lemma {:induction false} ScanPassesEscape(before: string, s: string, after: string)
    ensures CloseFrom(before + Escape(s) + "\"" + after, '"', |before|, false) == |before| + |Escape(s)|
    decreases |s|
  {
    var all := before + Escape(s) + "\"" + after;
    if s != "" {
      var e := EscapeChar(s[0]);
      assert Escape(s) == e + Escape(s[1..]);
      assert all == (before + e) + Escape(s[1..]) + "\"" + after;
      ScanPassesEscape(before + e, s[1..], after);
      assert all[|before|] == e[0];
      if |e| == 2 { assert CloseFrom(all, '"', |before|, false) == CloseFrom(all, '"', |before| + 2, false); }
    }
  }

  lemma QuotedScan(s: string)
    ensures var q := "\"" + Escape(s) + "\"";
            LStrip(q) == q && RStrip(q) == q && CloseFrom(q, '"', 1, false) == |q| - 1 && QuoteClosed(q)
  {
    ScanPassesEscape("\"", s, "");
    assert "\"" + Escape(s) + "\"" + "" == "\"" + Escape(s) + "\"";
  }

  lemma {:induction false} OnePassFacts(v: string)
    ensures '\r' !in OnePass(v)
    ensures '\n' !in v ==> |OnePass(v)| == |v|
    ensures '\r' !in v ==> OnePass(v) == v
  {
    if v != "" {
      if StartsWith(v, "\r\n") {
        assert v[0] == '\r' && v[1] == '\n';
        OnePassFacts(v[2..]);
      } else {
        OnePassFacts(v[1..]);
      }
    }
  }

  lemma ReadsQuoted(v: string)
    requires NeedsQuotes(v)
    ensures ReadEnvValue(FormatEnvValue(v)) == Some(NormaliseNewlines(v))
  {
    EscapedIsEscape(v);
    var n := NormaliseNewlines(v);
    QuotedScan(n);
    UnescapeEscape(n);
    assert FormatEnvValue(v)[1..|FormatEnvValue(v)| - 1] == Escape(n);
  }

  /** A value the caller can check to come back: with a hash, a double quote, a blank or a newline in it, or bare
      text without outer blanks, carriage returns or a leading single quote. */
  predicate ReadsBack(v: string) {
    '#' in v || '"' in v || ' ' in v || '\n' in v || (Strip(v) == v && '\r' !in v && (v == "" || v[0] != '\''))
  }

  /** Reading what the escaper wrote returns the value, with its newlines normalised, exactly for
      the values that read back. */
  lemma RoundTripExactly(v: string)
    ensures ReadEnvValue(FormatEnvValue(v)) == Some(NormaliseNewlines(v)) <==> ReadsBack(v)
  {
    if NeedsQuotes(v) {
      ReadsQuoted(v);
    } else {
      NormaliseIsOnePass(v);
      OnePassFacts(v);
      var r := ReadEnvValue(v);
      StripSubset(v);
      assert |OnePass(v)| == |v| && (|Strip(v)| == |v| ==> Strip(v) == v);
    }
  }

  lemma {:induction false} LStripDropsFront(s: string)
    ensures exists k: nat :: k <= |s| && LStrip(s) == s[k..]
  {
    if s != "" && IsSpace(s[0]) {
      LStripDropsFront(s[1..]);
      var k: nat :| k <= |s[1..]| && LStrip(s[1..]) == s[1..][k..];
      assert LStrip(s) == s[k + 1..];
    } else {
      assert LStrip(s) == s[0..];
    }
  }

  lemma StripSubset(s: string)
    ensures forall c :: c in Strip(s) ==> c in s
  {
    LStripDropsFront(s);
  }

  /** The values that are safe to write: with a hash, a double quote, a blank or a newline in it, or without a
      carriage return and without a leading single quote that nothing closes. */
  predicate Admissible(v: string) {
    '#' in v || '"' in v || ' ' in v || '\n' in v || ('\r' !in v && !OpenSingleQuote(v))
  }

  predicate OpenSingleQuote(v: string) {
    var w := LStrip(v);
    w != "" && w[0] == '\'' && '\'' !in w[1..]
  }

  lemma {:induction false} ScanSingle(s: string, k: nat)
    requires k <= |s|
    ensures CloseFrom(s, '\'', k, false) >= 0 <==> '\'' in s[k..]
    decreases |s| - k
  {
    if k < |s| {
      assert s[k..] == [s[k]] + s[k + 1..];
      ScanSingle(s, k + 1);
    }
  }

  lemma {:induction false} EscapeIsOneLine(s: string)
    requires '\r' !in s
    ensures '\n' !in Escape(s) && '\r' !in Escape(s)
  {
    if s != "" {
      EscapeIsOneLine(s[1..]);
      assert '\n' !in EscapeChar(s[0]) && '\r' !in EscapeChar(s[0]);
    }
  }

  /** A value formats to one physical line that the scanner accepts exactly if it is admissible. */
  lemma FormatsToOneClosedLine(v: string)
    ensures var f := FormatEnvValue(v);
            ('\n' !in f && '\r' !in f && QuoteClosed(f)) <==> Admissible(v)
    ensures '\n' !in FormatEnvValue(v)
  {
    if NeedsQuotes(v) {
      EscapedIsEscape(v);
      NormaliseIsOnePass(v);
      OnePassFacts(v);
      QuotedScan(NormaliseNewlines(v));
      EscapeIsOneLine(NormaliseNewlines(v));
    } else {
      var w := LStrip(v);
      LStripDropsFront(v);
      if w != "" && w[0] == '\'' { ScanSingle(w, 1); }
    }
  }

  /** Two values written alike are alike up to their newline characters. */
  lemma SameTextSameValue(v: string, w: string)
    requires FormatEnvValue(v) == FormatEnvValue(w)
    ensures NormaliseNewlines(v) == NormaliseNewlines(w)
  {
    assert NeedsQuotes(v) ==> FormatEnvValue(v)[0] == '"' && '"' in FormatEnvValue(v);
    assert NeedsQuotes(w) ==> FormatEnvValue(w)[0] == '"' && '"' in FormatEnvValue(w);
    if NeedsQuotes(v) {
      ReadsQuoted(v);
      ReadsQuoted(w);
    }
  }
}
