/** What the text operations of the settings writer mean, character by character. */
module EnvMeaning {
  import opened Wrappers
  import opened EnvText
  import opened EnvRoundTrip
  import opened EnvLines
  import opened EnvPromise

  // ----- newlines -----

  lemma CrlfMeans(s: string)
    ensures StartsWith(s, "\r\n") <==> |s| >= 2 && s[0] == '\r' && s[1] == '\n'
  {}

  lemma OnePassFirst(s: string)
    requires s != ""
    ensures OnePass(s) == if StartsWith(s, "\r\n") then "\n" + OnePass(s[2..])
                          else [if s[0] == '\r' then '\n' else s[0]] + OnePass(s[1..])
  {}

  lemma CrlfSplits(a: string, b: string)
    requires StartsWith(a, "\r\n") && OnePass(a[2..] + b) == OnePass(a[2..]) + OnePass(b)
    ensures OnePass(a + b) == OnePass(a) + OnePass(b)
  {
    hide StartsWith, OnePass;
    CrlfMeans(a);
    CrlfMeans(a + b);
    OnePassFirst(a);
    OnePassFirst(a + b);
    assert (a + b)[2..] == a[2..] + b;
  }

  lemma CharSplits(a: string, b: string)
    requires a != "" && !StartsWith(a, "\r\n") && (b == "" || a[|a| - 1] != '\r' || b[0] != '\n')
    requires OnePass(a[1..] + b) == OnePass(a[1..]) + OnePass(b)
    ensures OnePass(a + b) == OnePass(a) + OnePass(b)
  {
    hide StartsWith, OnePass;
    CrlfMeans(a);
    CrlfMeans(a + b);
    OnePassFirst(a);
    OnePassFirst(a + b);
    assert (a + b)[1..] == a[1..] + b;
  }

  lemma {:induction false} OnePassSplits(a: string, b: string)
    requires a == "" || b == "" || a[|a| - 1] != '\r' || b[0] != '\n'
    ensures OnePass(a + b) == OnePass(a) + OnePass(b)
  {
    if a == "" {
      assert a + b == b;
    } else {
      hide StartsWith, OnePass;
      CrlfMeans(a);
      if StartsWith(a, "\r\n") {
        OnePassSplits(a[2..], b);
        CrlfSplits(a, b);
      } else {
        OnePassSplits(a[1..], b);
        CharSplits(a, b);
      }
    }
  }

  /** Normalising goes through a text piece by piece, wherever no carriage return is cut off from its newline; it
      turns CRLF and a bare carriage return into one newline, and keeps every other character. */
  lemma NormaliseMeans(a: string, b: string, c: char)
    ensures a == "" || b == "" || a[|a| - 1] != '\r' || b[0] != '\n' ==>
              NormaliseNewlines(a + b) == NormaliseNewlines(a) + NormaliseNewlines(b)
    ensures NormaliseNewlines("\r\n") == "\n"
    ensures NormaliseNewlines([c]) == if c == '\r' then "\n" else [c]
  {
    NormaliseIsOnePass(a + b);
    NormaliseIsOnePass(a);
    NormaliseIsOnePass(b);
    NormaliseIsOnePass("\r\n");
    NormaliseIsOnePass([c]);
    assert StartsWith("\r\n", "\r\n") && "\r\n"[2..] == "" && [c][1..] == "";
    if a == "" || b == "" || a[|a| - 1] != '\r' || b[0] != '\n' { OnePassSplits(a, b); }
  }

  // ----- blanks -----

  /** The 29 characters that strip removes. */
  lemma SpacesAre(c: char)
    ensures IsSpace(c) <==>
              || c in "\t\n\U{0B}\U{0C}\r\U{1C}\U{1D}\U{1E}\U{1F} \U{85}\U{A0}\U{1680}"
              || c in "\U{2000}\U{2001}\U{2002}\U{2003}\U{2004}\U{2005}\U{2006}\U{2007}\U{2008}\U{2009}\U{200A}"
              || c in "\U{2028}\U{2029}\U{202F}\U{205F}\U{3000}"
  {}

  predicate Blank(s: string) { forall c <- s :: IsSpace(c) }

  lemma {:induction false} LStripMeans(s: string) returns (front: string)
    ensures s == front + LStrip(s) && Blank(front)
  {
    if s != "" && IsSpace(s[0]) {
      var rest := LStripMeans(s[1..]);
      front := [s[0]] + rest;
      assert s == [s[0]] + s[1..];
    } else {
      front := "";
    }
  }

  lemma {:induction false} RStripMeans(s: string) returns (back: string)
    ensures s == RStrip(s) + back && Blank(back)
  {
    if s != "" && IsSpace(s[|s| - 1]) {
      var rest := RStripMeans(s[..|s| - 1]);
      back := rest + [s[|s| - 1]];
      assert s == s[..|s| - 1] + [s[|s| - 1]];
    } else {
      back := "";
    }
  }

  /** Stripping removes blanks in front and behind, and no other character. */
  lemma StripMeans(s: string) returns (front: string, back: string)
    ensures s == front + Strip(s) + back && Blank(front) && Blank(back)
    ensures Strip(s) != "" ==> !IsSpace(Strip(s)[0]) && !IsSpace(Strip(s)[|Strip(s)| - 1])
  {
    hide LStrip, RStrip, IsSpace;
    front := LStripMeans(s);
    back := RStripMeans(LStrip(s));
    if Strip(s) != "" { assert Strip(s)[0] == LStrip(s)[0]; }
  }

  // ----- the escaper -----

  /** Every value with a hash, a double quote, a blank or a newline in it is written as one line that begins and
      ends with a double quote, and read back as itself, newlines normalised; every other value is written as it
      is. */
  lemma SpecialsAreQuoted(v: string)
    ensures var f := FormatEnvValue(v);
            if '#' in v || '"' in v || ' ' in v || '\n' in v then
              && |f| >= 2 && f[0] == '"' && f[|f| - 1] == '"' && '\n' !in f && '\r' !in f
              && CloseFrom(f, '"', 1, false) == |f| - 1
              && ReadEnvValue(f) == Some(NormaliseNewlines(v))
            else f == v
  {
    if '#' in v || '"' in v || ' ' in v || '\n' in v {
      RoundTripExactly(v);
      FormatsToOneClosedLine(v);
      EscapedIsEscape(v);
      NormaliseIsOnePass(v);
      OnePassFacts(v);
      EscapeIsOneLine(NormaliseNewlines(v));
      QuotedScan(NormaliseNewlines(v));
    }
  }

  // ----- one line -----

  ghost predicate HashAfter(text: string, front: string) { Blank(front) && front + "#" <= text }

  ghost predicate CommentText(text: string) { exists front :: HashAfter(text, front) }

  lemma StripOfFront(front: string, c: char, rest: string)
    requires Blank(front) && !IsSpace(c)
    ensures Strip(front + [c] + rest) == [c] + RStrip(rest)
  {
    assert front + [c] + rest == front + ([c] + rest);
    LStripJoins(front, [c] + rest);
    BlankStrips(front);
    assert [c] + rest == "" + [c] + rest;
    RStripTail("", c, rest);
    assert "" + [c] + RStrip(rest) == [c] + RStrip(rest);
  }

  lemma {:induction false} BlankStrips(s: string)
    requires Blank(s)
    ensures LStrip(s) == ""
  {
    if s != "" { BlankStrips(s[1..]); }
  }

  /** A line is a note exactly if it is blank or its first character that is no blank is a hash. */
  lemma NotesAre(text: string)
    ensures Parse(text).Note? <==> Blank(text) || CommentText(text)
  {
    hide LStrip, RStrip, IsSpace;
    assert !IsSpace('#') by { SpacesAre('#'); }
    var front, back := StripMeans(text);
    var t := Strip(text);
    if Parse(text).Note? && t != "" {
      assert t == "#" + t[1..];
      assert text == front + "#" + (t[1..] + back);
      assert HashAfter(text, front);
    }
    if Blank(text) { BlankStrips(text); }
    if CommentText(text) { CommentsAreNotes(text); }
  }

  lemma CommentsAreNotes(text: string)
    requires CommentText(text)
    ensures Parse(text).Note?
  {
    hide LStrip, RStrip, Strip, IsSpace;
    assert !IsSpace('#') by { SpacesAre('#'); }
    var f :| HashAfter(text, f);
    assert text == f + ['#'] + text[|f| + 1..];
    StripOfFront(f, '#', text[|f| + 1..]);
  }

  /** Any other line assigns exactly if it has an equals sign: to the text before the first one, stripped, the
      text behind it without trailing blanks. A line that has none is neither. */
  lemma AssignmentsAre(text: string, before: string, after: string)
    requires !Parse(text).Note?
    ensures Parse(text).Assign? <==> '=' in text
    ensures text == before + "=" + after && '=' !in before ==>
              Parse(text) == Assign(text, Strip(before), RStrip(after))
  {
    var front, back := StripMeans(text);
    assert !IsSpace('=');
    assert '=' in text <==> '=' in Strip(text);
    if text == before + "=" + after && '=' !in before { AssignmentAt(text, before, after); }
  }

  lemma StripAt(before: string, after: string)
    ensures Strip(before + "=" + after) == LStrip(before) + "=" + RStrip(after)
  {
    hide LStrip, RStrip, IsSpace;
    assert !IsSpace('=') by { SpacesAre('='); }
    var u, all := LStrip(before), before + "=" + after;
    assert all == before + ("=" + after);
    LStripJoins(before, "=" + after);
    EqualsStays(after);
    assert LStrip(all) == u + ['='] + after;
    RStripTail(u, '=', after);
  }

  lemma EqualsStays(after: string)
    ensures LStrip("=" + after) == "=" + after
  {}

  lemma AssignmentAt(text: string, before: string, after: string)
    requires !Parse(text).Note? && text == before + "=" + after && '=' !in before
    ensures Parse(text) == Assign(text, Strip(before), RStrip(after))
  {
    hide LStrip, RStrip, IsSpace, IndexOf;
    var u, tail := LStrip(before), RStrip(after);
    StripAt(before, after);
    LStripDropsFront(before);
    FirstEquals(u, tail);
    EqualsSplits(u, tail);
    ParsesAs(text, u);
    StripOfLStrip(before);
  }

  lemma StripOfLStrip(s: string)
    ensures Strip(LStrip(s)) == Strip(s)
  {}
}
