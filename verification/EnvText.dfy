/** How a setting's value is written to and read from one line of a .env file (src/settings.py). */
module EnvText {
  import opened Wrappers

  /** The characters str.strip removes. */
  predicate IsSpace(c: char) {
    var n := c as int;
    9 <= n <= 13 || 28 <= n <= 32 || n == 0x85 || n == 0xA0 || n == 0x1680 || 0x2000 <= n <= 0x200A
    || n == 0x2028 || n == 0x2029 || n == 0x202F || n == 0x205F || n == 0x3000
  }

  function LStrip(s: string): (r: string)
    ensures |r| <= |s| && (|r| == |s| ==> r == s)
    ensures s != "" && !IsSpace(s[0]) ==> r == s
    ensures r != "" ==> !IsSpace(r[0])
  {
    if s != "" && IsSpace(s[0]) then LStrip(s[1..]) else s
  }

  function RStrip(s: string): (r: string)
    ensures r <= s && (s != "" && !IsSpace(s[|s| - 1]) ==> r == s)
    ensures r != "" ==> !IsSpace(r[|r| - 1])
  {
    if s != "" && IsSpace(s[|s| - 1]) then RStrip(s[..|s| - 1]) else s
  }

  function Strip(s: string): (r: string)
    ensures |r| <= |s| && (|r| == |s| ==> r == s)
  {
    RStrip(LStrip(s))
  }

  predicate StartsWith(s: string, pat: string) {
    |pat| <= |s| && forall i | 0 <= i < |pat| :: s[i] == pat[i]
  }

  /** str.replace: leftmost matches, not overlapping. */
  function Replace(s: string, pat: string, sub: string): string
    requires pat != ""
  {
    if s == "" then ""
    else if StartsWith(s, pat) then sub + Replace(s[|pat|..], pat, sub)
    else [s[0]] + Replace(s[1..], pat, sub)
  }

  function NormaliseNewlines(v: string): string {
    Replace(Replace(v, "\r\n", "\n"), "\r", "\n")
  }

  predicate NeedsQuotes(v: string) { '#' in v || '"' in v || ' ' in v || '\n' in v }

  /** The replacement chain of _format_env_value. */
  function Escaped(v: string): string {
    var a := Replace(v, "\\", "\\\\");
    var b := Replace(a, "\r\n", "\n");
    var c := Replace(b, "\r", "\n");
    var d := Replace(c, "\n", "\\n");
    Replace(d, "\"", "\\\"")
  }

  function FormatEnvValue(v: string): string {
    if NeedsQuotes(v) then "\"" + Escaped(v) + "\"" else v
  }

  // ----- the quote scanner -----

  predicate IsQuote(c: char) { c == '"' || c == '\'' }

  /** Where the scan that has reached k finds the closing quote, or -1. */
  function CloseFrom(s: string, quote: char, k: nat, skip: bool): (r: int)
    requires k <= |s|
    ensures r == -1 || (k <= r < |s| && s[r] == quote)
    decreases |s| - k
  {
    if k == |s| then -1
    else if skip then CloseFrom(s, quote, k + 1, false)
    else if quote == '"' && s[k] == '\\' then CloseFrom(s, quote, k + 1, true)
    else if s[k] == quote then k
    else CloseFrom(s, quote, k + 1, false)
  }

  predicate QuoteClosed(value: string) {
    var v := LStrip(value);
    v == "" || !IsQuote(v[0]) || CloseFrom(v, v[0], 1, false) >= 0
  }

  /** _env_value_quote_closed. */
  method EnvValueQuoteClosed(value: string) returns (closed: bool)
    ensures closed == QuoteClosed(value)
  {
    var v := LStrip(value);
    if v == "" || !IsQuote(v[0]) { return true; }
    var quote, skip := v[0], false;
    for k := 1 to |v|
      invariant CloseFrom(v, quote, 1, false) == CloseFrom(v, quote, k, skip)
    {
      if skip {
        skip := false;
      } else if quote == '"' && v[k] == '\\' {
        skip := true;
      } else if v[k] == quote {
        return true;
      }
    }
    return false;
  }

  /** How many backslashes stand directly before position i, not looking before from. */
  function BackslashRun(s: string, from: nat, i: nat): nat
    requires i <= |s|
  {
    if i > from && s[i - 1] == '\\' then 1 + BackslashRun(s, from, i - 1) else 0
  }

  /** Position i holds a quote that closes a value opened before from. */
  predicate Closing(s: string, quote: char, from: nat, i: nat) {
    from <= i < |s| && s[i] == quote && (quote == '"' ==> BackslashRun(s, from, i) % 2 == 0)
  }

  lemma {:induction false} ScanFindsClosing(s: string, quote: char, from: nat, k: nat, skip: bool)
    requires from <= k <= |s| && IsQuote(quote)
    requires skip == (quote == '"' && BackslashRun(s, from, k) % 2 == 1)
    ensures var r := CloseFrom(s, quote, k, skip);
            && (r >= 0 ==> Closing(s, quote, from, r))
            && forall i: nat :: k <= i && Closing(s, quote, from, i) ==> 0 <= r <= i
    decreases |s| - k
  {
    if k < |s| {
      var next := if skip then false else quote == '"' && s[k] == '\\';
      assert quote == '"' ==> BackslashRun(s, from, k + 1)
                              == if s[k] == '\\' then 1 + BackslashRun(s, from, k) else 0;
      ScanFindsClosing(s, quote, from, k + 1, next);
    }
  }

  /** A value is closed exactly when it is unquoted or, after its opening quote, the same quote
      follows; for double quotes, behind an even number of backslashes. */
  lemma QuoteClosedMeaning(value: string)
    ensures var v := LStrip(value);
            QuoteClosed(value) <==> v == "" || !IsQuote(v[0]) || exists i: nat :: Closing(v, v[0], 1, i)
  {
    var v := LStrip(value);
    if v != "" && IsQuote(v[0]) {
      ScanFindsClosing(v, v[0], 1, 1, false);
      if CloseFrom(v, v[0], 1, false) >= 0 { assert Closing(v, v[0], 1, CloseFrom(v, v[0], 1, false)); }
    }
  }

  // ----- the reference reader of one value -----

  function Unescape(s: string): string {
    if s == "" then ""
    else if s[0] == '\\' && |s| >= 2 then
      (if s[1] == 'n' then "\n" else if s[1] == '\\' || s[1] == '"' then [s[1]] else s[..2]) + Unescape(s[2..])
    else [s[0]] + Unescape(s[1..])
  }

  /** What a value's text means; an open quote has no meaning. */
  function ReadEnvValue(raw: string): Option<string> {
    var v := Strip(raw);
    if v == "" || !IsQuote(v[0]) then Some(v)
    else
      var end := CloseFrom(v, v[0], 1, false);
      if end < 0 then None
      else Some(if v[0] == '"' then Unescape(v[1..end]) else v[1..end])
  }

  // ----- the replacement chain, one character at a time -----

  function EscapeChar(c: char): string {
    if c == '\\' then "\\\\" else if c == '\n' then "\\n" else if c == '"' then "\\\"" else [c]
  }

  function Escape(s: string): string { if s == "" then "" else EscapeChar(s[0]) + Escape(s[1..]) }

  lemma {:induction false} ReplaceSplits(a: string, b: string, c: char, sub: string)
    ensures Replace(a + b, [c], sub) == Replace(a, [c], sub) + Replace(b, [c], sub)
  {
    if a == "" {
      assert a + b == b;
    } else {
      assert (a + b)[1..] == a[1..] + b;
      ReplaceSplits(a[1..], b, c, sub);
    }
  }

  lemma {:induction false} ReplaceAbsent(s: string, pat: string, sub: string)
    requires pat != "" && pat[0] !in s
    ensures Replace(s, pat, sub) == s
  {
    if s != "" {
      ReplaceAbsent(s[1..], pat, sub);
    }
  }

  /** A prefix without carriage returns is out of reach of the CRLF replacement. */
  lemma {:induction false} CrlfSkipsPrefix(a: string, b: string)
    requires '\r' !in a
    ensures Replace(a + b, "\r\n", "\n") == a + Replace(b, "\r\n", "\n")
  {
    if a == "" {
      assert a + b == b;
    } else {
      assert (a + b)[1..] == a[1..] + b;
      assert (a + b)[0] == a[0];
      CrlfSkipsPrefix(a[1..], b);
    }
  }

  /** NormaliseNewlines in one pass. */
  function OnePass(v: string): string {
    if v == "" then ""
    else if StartsWith(v, "\r\n") then "\n" + OnePass(v[2..])
    else (if v[0] == '\r' then "\n" else [v[0]]) + OnePass(v[1..])
  }

  lemma SingleReplace(c: char, pat: char, sub: string)
    ensures Replace([c], [pat], sub) == if c == pat then sub else [c]
  {
    assert [c][1..] == "";
    assert sub + "" == sub && [c] + "" == [c];
    assert StartsWith([c], [pat]) <==> [c][0] == [pat][0];
  }

  lemma {:induction false} NormaliseIsOnePass(v: string)
    ensures NormaliseNewlines(v) == OnePass(v)
  {
    if v == "" {
    } else if StartsWith(v, "\r\n") {
      var rest := Replace(v[2..], "\r\n", "\n");
      assert Replace(v, "\r\n", "\n") == "\n" + rest;
      ReplaceSplits("\n", rest, '\r', "\n");
      SingleReplace('\n', '\r', "\n");
      NormaliseIsOnePass(v[2..]);
    } else {
      var rest := Replace(v[1..], "\r\n", "\n");
      assert Replace(v, "\r\n", "\n") == [v[0]] + rest;
      ReplaceSplits([v[0]], rest, '\r', "\n");
      SingleReplace(v[0], '\r', "\n");
      NormaliseIsOnePass(v[1..]);
    }
  }
}
