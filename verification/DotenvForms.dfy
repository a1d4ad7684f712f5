/** The forms of a dotenv line, each said in terms of what was written: bare values and inline comments, single and
    double quotes, the export prefix, lines that are skipped and lines that are refused
    (internal/dotenv/dotenv.go:28-167). */
module DotenvForms {
  import opened Wrappers
  import opened Dotenv

  // ----- trimming -------------------------------------------------------------------------------------------------

  /** What is left of the end of a line. */
  function TrimEnd(s: string): string {
    TrimRight(IsSpace, TrimRight(IsReturn, s))
  }

  lemma {:induction false} TrimBehind(p: char -> bool, a: string, c: char, s: string)
    requires !p(c)
    ensures TrimRight(p, a + [c] + s) == a + [c] + TrimRight(p, s)
    decreases |s|
  {
    var all := a + [c] + s;
    if s == "" {
      assert all == a + [c] && all[|all| - 1] == c;
    } else {
      assert all[|all| - 1] == s[|s| - 1] && all[..|all| - 1] == a + [c] + s[..|s| - 1];
      if p(s[|s| - 1]) {
        TrimBehind(p, a, c, s[..|s| - 1]);
      }
    }
  }

  lemma EndOf(a: string, c: char, s: string)
    requires !IsSpace(c) && !IsReturn(c)
    ensures TrimEnd(a + [c] + s) == a + [c] + TrimEnd(s)
  {
    TrimBehind(IsReturn, a, c, s);
    TrimBehind(IsSpace, a, c, TrimRight(IsReturn, s));
  }

  /** A text that does not end in white space is not trimmed. */
  lemma CleanEnd(s: string)
    requires s == "" || !IsSpace(s[|s| - 1])
    ensures TrimEnd(s) == s
  {
  }

  lemma {:induction false} AllTrimmed(p: char -> bool, b: string)
    requires forall c | c in b :: p(c)
    ensures TrimLeft(p, b) == "" && TrimRight(p, b) == ""
    decreases |b|
  {
    if b != "" {
      AllTrimmed(p, b[1..]);
      AllTrimmed(p, b[..|b| - 1]);
      assert b[0] in b && b[|b| - 1] in b;
    }
  }

  lemma {:induction false} TrimBefore(p: char -> bool, b: string, s: string)
    requires forall c | c in b :: p(c)
    ensures TrimLeft(p, b + s) == TrimLeft(p, s)
    decreases |b|
  {
    if b == "" {
      assert b + s == s;
    } else {
      assert (b + s)[0] == b[0] && b[0] in b && (b + s)[1..] == b[1..] + s;
      TrimBefore(p, b[1..], s);
    }
  }

  lemma {:induction false} TrimAfter(p: char -> bool, s: string, b: string)
    requires forall c | c in b :: p(c)
    ensures TrimRight(p, s + b) == TrimRight(p, s)
    decreases |b|
  {
    if b == "" {
      assert s + b == s;
    } else {
      assert (s + b)[|s + b| - 1] == b[|b| - 1] && b[|b| - 1] in b && (s + b)[..|s + b| - 1] == s + b[..|b| - 1];
      TrimAfter(p, s, b[..|b| - 1]);
    }
  }

  lemma KeyStarts(k: string)
    requires ValidKey(k)
    ensures k != "" && !IsSpace(k[0]) && k[0] != '#' && !IsReturn(k[0])
  {
    assert IsKeyChar(k[0], true);
  }

  lemma EqualsIsNoSpace()
    ensures !IsSpace('=') && !IsReturn('=')
  {
  }

  lemma TextLineIs(k: string, s: string)
    requires k != "" && !IsSpace(k[0])
    ensures TrimSpace(TrimRight(IsReturn, k + "=" + s)) == k + "=" + TrimEnd(s)
  {
    EqualsIsNoSpace();
    hide IsSpace, IsReturn, TrimRight;
    TrimBehind(IsReturn, k, '=', s);
    var line := k + "=" + TrimRight(IsReturn, s);
    assert line[0] == k[0];
    assert TrimLeft(IsSpace, line) == line;
    TrimBehind(IsSpace, k, '=', TrimRight(IsReturn, s));
  }

  lemma LineIs(k: string, s: string)
    requires ValidKey(k)
    ensures TrimSpace(TrimRight(IsReturn, k + "=" + s)) == k + "=" + TrimEnd(s)
  {
    KeyStarts(k);
    TextLineIs(k, s);
  }

  // ----- one assignment -------------------------------------------------------------------------------------------

  /** A line that is a valid key, an equals sign and some text assigns what the text stands for. */
  lemma Assignment(raw: string, k: string, t: string)
    requires ValidKey(k) && TrimSpace(TrimRight(IsReturn, raw)) == k + "=" + t
    ensures ParseLine(raw) == match Unquoted(TrimLeft(IsBlankChar, t))
                              case Ok(v) => Good(k, v)
                              case Err(e) => Bad(e)
  {
    KeyStarts(k);
    hide Unquoted, IsSpace, TrimLeft, TrimRight, StripExport, IndexOf, TrimSpace;
    var line := k + "=" + t;
    assert line == k + ("=" + t);
    KeyIsNotExport(k, "=" + t);
    KeyHasNoOther(k, '=');
    FirstAfter(k, '=', t);
    assert line[..|k|] == k && line[|k| + 1..] == t && line[0] == k[0];
    KeyIsTrimmed(k);
  }

  lemma AssignmentLine(k: string, s: string)
    requires ValidKey(k)
    ensures ParseLine(k + "=" + s) == match Unquoted(TrimLeft(IsBlankChar, TrimEnd(s)))
                                      case Ok(v) => Good(k, v)
                                      case Err(e) => Bad(e)
  {
    hide ParseLine;
    LineIs(k, s);
    Assignment(k + "=" + s, k, TrimEnd(s));
  }

  // ----- bare values ----------------------------------------------------------------------------------------------

  /** A text that can stand bare: it neither starts nor ends in white space, starts with no quote, and holds no inline
      comment. */
  predicate CanBeBare(v: string) {
    && v != "" && v[0] != '"' && v[0] != '\'' && v[0] != ' ' && v[0] != '\t' && !IsSpace(v[|v| - 1])
    && forall i | 0 <= i < |v| - 1 :: !(v[i] == ' ' && v[i + 1] == '#')
  }

  lemma {:induction false} NoComment(v: string)
    requires forall i | 0 <= i < |v| - 1 :: !(v[i] == ' ' && v[i + 1] == '#')
    ensures CommentStart(v) == |v|
  {
    if |v| >= 2 {
      forall i | 0 <= i < |v[1..]| - 1 ensures !(v[1..][i] == ' ' && v[1..][i + 1] == '#') {
        assert v[1..][i] == v[i + 1] && v[1..][i + 1] == v[i + 2];
      }
      NoComment(v[1..]);
    }
  }

  lemma BareEnd(v: string)
    requires v != "" && !IsSpace(v[|v| - 1])
    ensures TrimRight(IsBlankChar, v) == v
  {
  }

  lemma BareStart(v: string)
    requires v != "" && v[0] != ' ' && v[0] != '\t'
    ensures TrimLeft(IsBlankChar, v) == v
  {
  }

  /** A bare value stands for itself; nothing behind the equals sign stands for the empty string. */
  lemma BareValue(k: string, v: string)
    requires ValidKey(k) && (v == "" || CanBeBare(v))
    ensures ParseLine(k + "=" + v) == Good(k, v)
  {
    hide ParseLine;
    AssignmentLine(k, v);
    CleanEnd(v);
    if v != "" {
      BareStart(v);
      NoComment(v);
      BareEnd(v);
      assert v[..|v|] == v;
    }
  }

  lemma {:induction false} CommentAfter(v: string, rest: string)
    requires forall i | 0 <= i < |v| - 1 :: !(v[i] == ' ' && v[i + 1] == '#')
    ensures CommentStart(v + " #" + rest) == |v|
  {
    var s := v + " #" + rest;
    if v == "" {
      assert s[0] == ' ' && s[1] == '#';
    } else {
      assert s[0] == v[0] && s[1..] == v[1..] + " #" + rest;
      assert s[1] == if |v| > 1 then v[1] else ' ';
      forall i | 0 <= i < |v[1..]| - 1 ensures !(v[1..][i] == ' ' && v[1..][i + 1] == '#') {
        assert v[1..][i] == v[i + 1] && v[1..][i + 1] == v[i + 2];
      }
      CommentAfter(v[1..], rest);
    }
  }

  /** An inline comment behind a bare value is dropped, with the blanks before it. */
  lemma BareValueWithComment(k: string, v: string, blanks: string, rest: string)
    requires ValidKey(k) && CanBeBare(v) && forall c | c in blanks :: c == ' ' || c == '\t'
    ensures ParseLine(k + "=" + (v + blanks + " #" + rest)) == Good(k, v)
  {
    hide ParseLine;
    var s := v + blanks + " #" + rest;
    AssignmentLine(k, s);
    assert s == (v + blanks + " ") + ['#'] + rest;
    EndOf(v + blanks + " ", '#', rest);
    BareReads(v, blanks, TrimEnd(rest));
    hide Unquoted, TrimLeft, TrimEnd, IsBlankChar, CanBeBare;
    assert TrimEnd(s) == v + blanks + " #" + TrimEnd(rest);
  }

  lemma BareReads(v: string, blanks: string, rest: string)
    requires CanBeBare(v) && forall c | c in blanks :: c == ' ' || c == '\t'
    ensures Unquoted(TrimLeft(IsBlankChar, v + blanks + " #" + rest)) == Ok(v)
  {
    var t := v + blanks + " #" + rest;
    assert t[0] == v[0];
    BareStart(t);
    NoCommentYet(v, blanks);
    CommentAfter(v + blanks, rest);
    assert t[..|v + blanks|] == v + blanks;
    TrimAfter(IsBlankChar, v, blanks);
    BareEnd(v);
  }

  lemma NoCommentYet(v: string, blanks: string)
    requires CanBeBare(v) && forall c | c in blanks :: c == ' ' || c == '\t'
    ensures var w := v + blanks; forall i | 0 <= i < |w| - 1 :: !(w[i] == ' ' && w[i + 1] == '#')
  {
    var w := v + blanks;
    forall i | 0 <= i < |w| - 1 ensures !(w[i] == ' ' && w[i + 1] == '#') {
      if i + 1 >= |v| {
        assert w[i + 1] == blanks[i + 1 - |v|] && blanks[i + 1 - |v|] in blanks;
      }
    }
  }

  /** Not so behind an empty value: there the comment becomes the value, since the blank before it is gone by then. */
  lemma CommentBecomesValue(k: string, rest: string)
    requires ValidKey(k) && CanBeBare("#" + rest)
    ensures ParseLine(k + "=" + (" #" + rest)) == Good(k, "#" + rest)
  {
    hide ParseLine;
    var s := " #" + rest;
    AssignmentLine(k, s);
    assert s[|s| - 1] == ("#" + rest)[|rest|];
    CleanEnd(s);
    HashReads(rest);
    hide Unquoted, TrimLeft, TrimEnd, IsBlankChar, CanBeBare, ValidKey;
  }

  lemma HashReads(rest: string)
    requires CanBeBare("#" + rest)
    ensures Unquoted(TrimLeft(IsBlankChar, " #" + rest)) == Ok("#" + rest)
  {
    TrimBefore(IsBlankChar, " ", "#" + rest);
    assert " #" + rest == " " + ("#" + rest);
    BareStart("#" + rest);
    NoComment("#" + rest);
    BareEnd("#" + rest);
    assert ("#" + rest)[..|rest| + 1] == "#" + rest;
  }

  // ----- quoted values --------------------------------------------------------------------------------------------

  const APOSTROPHE := '\''

  /** Between single quotes every character stands for itself; what follows them is ignored. */
  lemma SingleQuoted(k: string, v: string, rest: string)
    requires ValidKey(k) && APOSTROPHE !in v
    ensures ParseLine(k + "=" + ("'" + v + "'" + rest)) == Good(k, v)
  {
    hide ParseLine;
    var s := "'" + v + "'" + rest;
    AssignmentLine(k, s);
    assert s == ("'" + v) + [APOSTROPHE] + rest;
    EndOf("'" + v, APOSTROPHE, rest);
    SingleReads(v, TrimEnd(rest));
    hide Unquoted, TrimLeft, TrimEnd, IsBlankChar;
    assert TrimEnd(s) == "'" + v + "'" + TrimEnd(rest);
  }

  lemma SingleReads(v: string, tail: string)
    requires APOSTROPHE !in v
    ensures Unquoted(TrimLeft(IsBlankChar, "'" + v + "'" + tail)) == Ok(v)
  {
    var t := "'" + v + "'" + tail;
    assert t[0] == APOSTROPHE;
    BareStart(t);
    assert t[1..] == v + [APOSTROPHE] + tail;
    FirstAfter(v, APOSTROPHE, tail);
    assert t[1..1 + |v|] == v;
  }

  /** Without the closing one the line is refused. */
  lemma SingleUnterminated(k: string, v: string)
    requires ValidKey(k) && APOSTROPHE !in v
    ensures ParseLine(k + "=" + ("'" + v)) == Bad(UnterminatedSingle)
  {
    hide ParseLine;
    var s := "'" + v;
    AssignmentLine(k, s);
    assert s == "" + [APOSTROPHE] + v;
    EndOf("", APOSTROPHE, v);
    var t := "'" + TrimEnd(v);
    assert TrimEnd(s) == t && t[0] == APOSTROPHE;
    BareStart(t);
    assert t[1..] == TrimEnd(v);
    TrimmedIsPrefix(v);
  }

  lemma {:induction false} TrimIsPrefix(p: char -> bool, s: string)
    ensures TrimRight(p, s) <= s
    decreases |s|
  {
    if s != "" && p(s[|s| - 1]) {
      TrimIsPrefix(p, s[..|s| - 1]);
    }
  }

  lemma TrimmedIsPrefix(s: string)
    ensures TrimEnd(s) <= s && forall c | c in TrimEnd(s) :: c in s
  {
    TrimIsPrefix(IsReturn, s);
    TrimIsPrefix(IsSpace, TrimRight(IsReturn, s));
    forall c | c in TrimEnd(s) ensures c in s {
      var i :| 0 <= i < |TrimEnd(s)| && TrimEnd(s)[i] == c;
      assert s[i] == c;
    }
  }

  /** Between double quotes the documented escapes stand for their characters; what follows is ignored. */
  lemma DoubleQuoted(k: string, v: string, rest: string)
    requires ValidKey(k)
    ensures ParseLine(k + "=" + ("\"" + Escape(v) + "\"" + rest)) == Good(k, v)
  {
    hide ParseLine;
    var s := "\"" + Escape(v) + "\"" + rest;
    AssignmentLine(k, s);
    assert s == ("\"" + Escape(v)) + ['"'] + rest;
    EndOf("\"" + Escape(v), '"', rest);
    DoubleReads(v, TrimEnd(rest));
    hide Unquoted, TrimLeft, TrimEnd, IsBlankChar, Escape;
    assert TrimEnd(s) == "\"" + Escape(v) + "\"" + TrimEnd(rest);
  }

  lemma DoubleReads(v: string, tail: string)
    ensures Unquoted(TrimLeft(IsBlankChar, "\"" + Escape(v) + "\"" + tail)) == Ok(v)
  {
    hide Escape, UpToQuote;
    var t := "\"" + Escape(v) + "\"" + tail;
    assert t[0] == '"';
    BareStart(t);
    assert t[1..] == Escape(v) + ("\"" + tail);
    EscapesReadBack(v, tail);
  }

  /** Behind a backslash n, r and t stand for line feed, carriage return and tab, any other character for itself. */
  lemma EscapedCharacter(k: string, a: string, c: char, b: string, rest: string)
    requires ValidKey(k)
    ensures ParseLine(k + "=" + ("\"" + Escape(a) + "\\" + [c] + Escape(b) + "\"" + rest)) ==
      Good(k, a + [if c == 'n' then '\n' else if c == 'r' then '\r' else if c == 't' then '\t' else c] + b)
  {
    hide ParseLine;
    var inside := "\"" + Escape(a) + "\\" + [c] + Escape(b);
    var s := inside + "\"" + rest;
    AssignmentLine(k, s);
    assert s == inside + ['"'] + rest;
    EndOf(inside, '"', rest);
    EscapeReads(a, c, b, TrimEnd(rest));
    hide Unquoted, TrimLeft, TrimEnd, IsBlankChar, Escape;
    assert TrimEnd(s) == inside + "\"" + TrimEnd(rest);
  }

  lemma EscapeReads(a: string, c: char, b: string, tail: string)
    ensures Unquoted(TrimLeft(IsBlankChar, "\"" + Escape(a) + "\\" + [c] + Escape(b) + "\"" + tail)) ==
      Ok(a + [if c == 'n' then '\n' else if c == 'r' then '\r' else if c == 't' then '\t' else c] + b)
  {
    var t := "\"" + Escape(a) + "\\" + [c] + Escape(b) + "\"" + tail;
    EscapeReadsBack(a, c, b, tail);
    hide Escape, UpToQuote;
    assert t[0] == '"';
    BareStart(t);
    assert t[1..] == Escape(a) + ("\\" + [c] + (Escape(b) + ("\"" + tail)));
  }

  lemma EscapeReadsBack(a: string, c: char, b: string, tail: string)
    ensures UpToQuote(Escape(a) + ("\\" + [c] + (Escape(b) + ("\"" + tail)))) ==
      Some(a + [if c == 'n' then '\n' else if c == 'r' then '\r' else if c == 't' then '\t' else c] + b)
  {
    var more := "\\" + [c] + (Escape(b) + ("\"" + tail));
    EscapesThenMore(a, more);
    EscapesReadBack(b, tail);
    BackslashReads(c, Escape(b) + ("\"" + tail));
    hide Escape, UpToQuote;
    var x := [if c == 'n' then '\n' else if c == 'r' then '\r' else if c == 't' then '\t' else c];
    assert a + (x + b) == a + x + b;
  }

  lemma BackslashReads(c: char, tail: string)
    ensures UpToQuote("\\" + [c] + tail) ==
      Continued([if c == 'n' then '\n' else if c == 'r' then '\r' else if c == 't' then '\t' else c], tail)
  {
    var s := "\\" + [c] + tail;
    assert s[0] == '\\' && s[1] == c && s[2..] == tail;
  }

  lemma {:induction false} EscapesThenMore(a: string, more: string)
    ensures UpToQuote(Escape(a) + more) == Continued(a, more)
  {
    hide UpToQuote, EscapeChar;
    var rest := UpToQuote(more);
    if a == "" {
      assert Escape(a) + more == more;
      assert rest.Some? ==> "" + rest.value == rest.value;
    } else {
      EscapesThenMore(a[1..], more);
      OneCharReadsBack(a[0], Escape(a[1..]) + more);
      EscapesByOne(a, more);
      hide Escape;
      assert rest.Some? ==> [a[0]] + (a[1..] + rest.value) == a + rest.value;
    }
  }

  lemma EscapesByOne(a: string, more: string)
    requires a != ""
    ensures Escape(a) + more == EscapeChar(a[0]) + (Escape(a[1..]) + more)
  {
    hide EscapeChar;
    Regroup(EscapeChar(a[0]), Escape(a[1..]), more);
  }

  /** Without the closing one the line is refused, unless white space at its end was part of the value. */
  lemma DoubleUnterminated(k: string, v: string)
    requires ValidKey(k) && (v == "" || !IsSpace(v[|v| - 1]) || v[|v| - 1] in "\n\r\t")
    ensures ParseLine(k + "=" + ("\"" + Escape(v))) == Bad(UnterminatedDouble)
  {
    hide ParseLine, Unquoted, TrimLeft, TrimEnd, IsBlankChar, Escape, ValidKey;
    UnterminatedEnd(v);
    AssignmentLine(k, "\"" + Escape(v));
    UnterminatedReads(v);
  }

  lemma UnterminatedEnd(v: string)
    requires v == "" || !IsSpace(v[|v| - 1]) || v[|v| - 1] in "\n\r\t"
    ensures TrimEnd("\"" + Escape(v)) == "\"" + Escape(v)
  {
    hide Escape, TrimEnd, IsSpace;
    QuoteIsNoSpace();
    EscapeEnds(v);
    var s := "\"" + Escape(v);
    assert s[|s| - 1] == if v == "" then '"' else Escape(v)[|Escape(v)| - 1];
    CleanEnd(s);
  }

  lemma UnterminatedReads(v: string)
    ensures Unquoted(TrimLeft(IsBlankChar, "\"" + Escape(v))) == Err(UnterminatedDouble)
  {
    hide Escape, UpToQuote;
    var s := "\"" + Escape(v);
    assert s[0] == '"' && s[1..] == Escape(v);
    BareStart(s);
    NeverClosed(v);
  }

  lemma QuoteIsNoSpace()
    ensures !IsSpace('"')
  {
  }

  lemma {:induction false} EscapeEnds(v: string)
    requires v == "" || !IsSpace(v[|v| - 1]) || v[|v| - 1] in "\n\r\t"
    ensures Escape(v) == "" <==> v == ""
    ensures v != "" ==> !IsSpace(Escape(v)[|Escape(v)| - 1])
  {
    hide IsSpace, EscapeChar;
    if v != "" {
      EscapeCharEnds(v[0]);
      if v[1..] == "" {
        assert Escape(v[1..]) == "" && Escape(v) == EscapeChar(v[0]) && v[|v| - 1] == v[0];
      } else {
        EscapeEnds(v[1..]);
        assert Escape(v)[|Escape(v)| - 1] == Escape(v[1..])[|Escape(v[1..])| - 1];
      }
    }
  }

  lemma EscapeCharEnds(c: char)
    ensures EscapeChar(c) != ""
    ensures !IsSpace(c) || c in "\n\r\t" ==> !IsSpace(EscapeChar(c)[|EscapeChar(c)| - 1])
  {
  }

  lemma {:induction false} NeverClosed(v: string)
    ensures UpToQuote(Escape(v)) == None
  {
    if v != "" {
      NeverClosed(v[1..]);
      OneCharReadsBack(v[0], Escape(v[1..]));
    }
  }

  // ----- the export prefix ----------------------------------------------------------------------------------------

  /** A line may start with export and blanks: they make no difference. */
  lemma ExportMakesNoDifference(k: string, blanks: string, s: string)
    requires ValidKey(k) && blanks != "" && forall c | c in blanks :: c == ' ' || c == '\t'
    ensures ParseLine("export" + blanks + (k + "=" + s)) == ParseLine(k + "=" + s)
  {
    hide ParseLine;
    var raw := "export" + blanks + (k + "=" + s);
    AssignmentLine(k, s);
    KeyStarts(k);
    EqualsIsNoSpace();
    var lead := "export" + blanks + k;
    assert raw == lead + ['='] + s;
    TrimBehind(IsReturn, lead, '=', s);
    var line := lead + "=" + TrimRight(IsReturn, s);
    assert line[0] == 'e';
    NotTrimmedLeft(line);
    TrimBehind(IsSpace, lead, '=', TrimRight(IsReturn, s));
    ExportedAssignment(raw, k, blanks, TrimEnd(s));
  }

  lemma NotTrimmedLeft(line: string)
    requires line != "" && line[0] == 'e'
    ensures TrimLeft(IsSpace, line) == line
  {
  }

  lemma ExportedAssignment(raw: string, k: string, blanks: string, t: string)
    requires ValidKey(k) && blanks != "" && forall c | c in blanks :: c == ' ' || c == '\t'
    requires TrimSpace(TrimRight(IsReturn, raw)) == "export" + blanks + k + "=" + t
    ensures ParseLine(raw) == match Unquoted(TrimLeft(IsBlankChar, t))
                              case Ok(v) => Good(k, v)
                              case Err(e) => Bad(e)
  {
    KeyStarts(k);
    ExportIsStripped(k, blanks, t);
    var line := k + "=" + t;
    assert ("export" + blanks + k + "=" + t)[0] == 'e';
    hide Unquoted, IsSpace, TrimLeft, TrimRight, StripExport, IndexOf, TrimSpace;
    KeyHasNoOther(k, '=');
    FirstAfter(k, '=', t);
    assert line[..|k|] == k && line[|k| + 1..] == t;
    KeyIsTrimmed(k);
  }

  lemma ExportIsStripped(k: string, blanks: string, t: string)
    requires ValidKey(k) && blanks != "" && forall c | c in blanks :: c == ' ' || c == '\t'
    ensures StripExport("export" + blanks + k + "=" + t) == Some(k + "=" + t)
  {
    KeyStarts(k);
    var trimmed := "export" + blanks + k + "=" + t;
    var line := k + "=" + t;
    assert trimmed == "export" + (blanks + line);
    assert trimmed[..6] == "export" && trimmed[6..] == blanks + line && blanks[0] in blanks && trimmed[6] == blanks[0];
    TrimBefore(IsBlankChar, blanks, line);
    KeyIsNoBlank(k);
    assert line[0] == k[0];
    assert TrimLeft(IsBlankChar, line) == line;
  }

  lemma KeyIsNoBlank(k: string)
    requires ValidKey(k)
    ensures !IsBlankChar(k[0])
  {
    assert IsKeyChar(k[0], true);
  }

  // ----- lines without an assignment ------------------------------------------------------------------------------

  /** Blank lines and comment lines are skipped. */
  lemma SkippedLines(blanks: string, rest: string)
    requires forall c | c in blanks :: IsSpace(c)
    ensures ParseLine(blanks) == Skip && ParseLine(blanks + "#" + rest) == Skip
  {
    BlankIsTrimmed(blanks);
    var raw := blanks + "#" + rest;
    assert !IsReturn('#') && !IsSpace('#');
    TrimBehind(IsReturn, blanks, '#', rest);
    var r := TrimRight(IsReturn, rest);
    assert blanks + ['#'] + r == blanks + ("#" + r);
    TrimBefore(IsSpace, blanks, "#" + r);
    assert TrimLeft(IsSpace, "#" + r) == "#" + r;
    assert "#" + r == "" + ['#'] + r;
    TrimBehind(IsSpace, "", '#', r);
  }

  /** Of the lines of one character exactly the white space of Unicode and the comment sign are skipped. */
  lemma OneCharacterLine(c: char)
    ensures ParseLine([c]) ==
      if c == '#' || c as int in {9, 10, 11, 12, 13, 32, 0x85, 0xa0, 0x1680, 0x2028, 0x2029, 0x202f, 0x205f, 0x3000}
         || 0x2000 <= c as int <= 0x200a then Skip
      else if c == '=' then Bad(EmptyKey) else Bad(NoSeparator)
  {
    if IsSpace(c) {
      BlankIsTrimmed([c]);
    } else if c == '#' {
      SkippedLines("", "");
      assert "" + "#" + "" == [c];
    } else if c == '=' {
      NoKeyLine("");
      assert "=" + "" == [c];
    } else {
      NoSeparatorLine([c]);
    }
  }

  lemma BlankIsTrimmed(blanks: string)
    requires forall c | c in blanks :: IsSpace(c)
    ensures TrimSpace(TrimRight(IsReturn, blanks)) == ""
  {
    TrimIsPrefix(IsReturn, blanks);
    var r := TrimRight(IsReturn, blanks);
    forall c | c in r ensures IsSpace(c) {
      var i :| 0 <= i < |r| && r[i] == c;
      assert blanks[i] == c;
    }
    AllTrimmed(IsSpace, r);
  }

  /** A text before the equals sign that is no identifier is refused. */
  lemma BadKey(k: string, s: string)
    requires k != "" && '=' !in k && !IsSpace(k[0]) && !IsSpace(k[|k| - 1]) && k[0] != '#'
    requires !("export" <= k && |k| > 6 && (k[6] == ' ' || k[6] == '\t'))
    requires !('a' <= k[0] <= 'z' || 'A' <= k[0] <= 'Z' || k[0] == '_')
             || exists i | 0 <= i < |k| ::
               !('a' <= k[i] <= 'z' || 'A' <= k[i] <= 'Z' || k[i] == '_' || '0' <= k[i] <= '9')
    ensures ParseLine(k + "=" + s) == Bad(InvalidKey)
  {
    NoIdentifier(k);
    TextLineIs(k, s);
    var t := TrimEnd(s);
    var line := k + "=" + t;
    NotExported(k, t);
    NothingToTrim(IsSpace, k);
    hide ValidKey, IsSpace, TrimLeft, TrimRight, StripExport, IndexOf, TrimEnd;
    FirstAfter(k, '=', t);
    assert line[..|k|] == k && line[0] == k[0];
    assert TrimSpace(k) == k;
  }

  lemma NoIdentifier(k: string)
    requires k != ""
    requires !('a' <= k[0] <= 'z' || 'A' <= k[0] <= 'Z' || k[0] == '_')
             || exists i | 0 <= i < |k| ::
               !('a' <= k[i] <= 'z' || 'A' <= k[i] <= 'Z' || k[i] == '_' || '0' <= k[i] <= '9')
    ensures !ValidKey(k)
  {
    if i :| 0 <= i < |k| && !('a' <= k[i] <= 'z' || 'A' <= k[i] <= 'Z' || k[i] == '_' || '0' <= k[i] <= '9') {
      assert !IsKeyChar(k[i], i == 0);
    }
    assert !('a' <= k[0] <= 'z' || 'A' <= k[0] <= 'Z' || k[0] == '_') ==> !IsKeyChar(k[0], true);
  }

  lemma NotExported(k: string, t: string)
    requires k != "" && '=' !in k && !("export" <= k && |k| > 6 && (k[6] == ' ' || k[6] == '\t'))
    ensures StripExport(k + "=" + t).None?
  {
    var line := k + "=" + t;
    assert line[|k|] == '=' && "export"[0] != '=' && "export"[1] != '=' && "export"[2] != '=';
    assert "export"[3] != '=' && "export"[4] != '=' && "export"[5] != '=';
    assert |k| > 6 ==> line[..6] == k[..6] && line[6] == k[6];
  }

  /** And every identifier is accepted. */
  lemma GoodKey(k: string)
    requires k != "" && ('a' <= k[0] <= 'z' || 'A' <= k[0] <= 'Z' || k[0] == '_')
    requires forall i | 0 <= i < |k| :: 'a' <= k[i] <= 'z' || 'A' <= k[i] <= 'Z' || k[i] == '_' || '0' <= k[i] <= '9'
    ensures ValidKey(k)
  {
  }

  /** A line without an equals sign is refused, unless it is blank or a comment; so is one without a key. */
  lemma NoAssignment(l: string, s: string)
    requires l != "" && '=' !in l && !IsSpace(l[0]) && !IsSpace(l[|l| - 1]) && l[0] != '#'
    ensures ParseLine(l) == Bad(NoSeparator) && ParseLine("=" + s) == Bad(EmptyKey)
  {
    NoSeparatorLine(l);
    NoKeyLine(s);
  }

  lemma NoSeparatorLine(l: string)
    requires l != "" && '=' !in l && !IsSpace(l[0]) && !IsSpace(l[|l| - 1]) && l[0] != '#'
    ensures ParseLine(l) == Bad(NoSeparator)
  {
    ReturnIsSpace(l[|l| - 1]);
    NothingToTrim(IsSpace, l);
    assert TrimRight(IsReturn, l) == l;
    hide IsSpace, TrimLeft, TrimRight;
    if StripExport(l).Some? {
      assert forall c | c in l[6..] :: c in l;
      SuffixHasNo(IsBlankChar, l[6..], '=');
    }
  }

  lemma NoKeyLine(s: string)
    ensures ParseLine("=" + s) == Bad(EmptyKey)
  {
    EqualsIsNoSpace();
    assert "=" + s == "" + ['='] + s;
    TrimBehind(IsReturn, "", '=', s);
    TrimBehind(IsSpace, "", '=', TrimRight(IsReturn, s));
    var line := "=" + TrimEnd(s);
    assert TrimLeft(IsSpace, "=" + TrimRight(IsReturn, s)) == "=" + TrimRight(IsReturn, s);
    assert StripExport(line).None? && line[0] == '=';
    FirstAfter("", '=', TrimEnd(s));
    assert line == "" + ['='] + TrimEnd(s) && line[..0] == "";
  }

  lemma ReturnIsSpace(c: char)
    ensures IsReturn(c) ==> IsSpace(c)
  {
  }

  lemma {:induction false} SuffixHasNo(p: char -> bool, s: string, c: char)
    requires c !in s
    ensures c !in TrimLeft(p, s)
  {
    if s != "" && p(s[0]) {
      assert forall x | x in s[1..] :: x in s;
      SuffixHasNo(p, s[1..], c);
    }
  }

  // ----- whole files ----------------------------------------------------------------------------------------------

  /** Every line is accounted for under its own number, counted from one: a good line gives its pair, a bad one its
      error, a skipped one nothing. */
  lemma {:induction false} ParsedByLine(lines: seq<string>, n: nat, p: Pair, e: ParseError)
    requires n <= |lines|
    ensures p in ParseLines(lines, n).pairs <==>
            1 <= p.line <= n && ParseLine(lines[p.line - 1]) == Good(p.key, p.value)
    ensures e in ParseLines(lines, n).errs <==> 1 <= e.line <= n && ParseLine(lines[e.line - 1]) == Bad(e.reason)
  {
    hide ParseLine;
    if n > 0 {
      ParsedByLine(lines, n - 1, p, e);
    }
  }

  /** Pairs and errors in the order of their lines. */
  predicate InLineOrder(r: Parsed, n: nat) {
    && (forall i | 0 <= i < |r.pairs| :: 1 <= r.pairs[i].line <= n)
    && (forall i | 0 <= i < |r.errs| :: 1 <= r.errs[i].line <= n)
    && (forall i, j | 0 <= i < j < |r.pairs| :: r.pairs[i].line < r.pairs[j].line)
    && (forall i, j | 0 <= i < j < |r.errs| :: r.errs[i].line < r.errs[j].line)
  }

  lemma OneMoreLine(r: Parsed, n: nat, k: string, v: string, e: Reason)
    requires n > 0 && InLineOrder(r, n - 1)
    ensures InLineOrder(r, n) && InLineOrder(r.(pairs := r.pairs + [Pair(k, v, n)]), n)
    ensures InLineOrder(r.(errs := r.errs + [ParseError(n, e)]), n)
  {
  }

  lemma {:induction false} ParsedInOrder(lines: seq<string>, n: nat)
    requires n <= |lines|
    ensures InLineOrder(ParseLines(lines, n), n)
  {
    hide ParseLine, InLineOrder;
    if n > 0 {
      ParsedInOrder(lines, n - 1);
      match ParseLine(lines[n - 1])
      case Good(k, v) => OneMoreLine(ParseLines(lines, n - 1), n, k, v, NoSeparator);
      case Bad(e) => OneMoreLine(ParseLines(lines, n - 1), n, "", "", e);
      case Skip => OneMoreLine(ParseLines(lines, n - 1), n, "", "", NoSeparator);
    } else {
      assert InLineOrder(Parsed([], []), 0) by { NoLines(); }
    }
  }

  lemma NoLines()
    ensures InLineOrder(Parsed([], []), 0)
  {
  }

  /** The lines of a text are what stands between its line feeds. */
  lemma {:induction false} LinesAre(s: string)
    ensures JoinLines(Lines(s)) == s && forall l | l in Lines(s) :: '\n' !in l
  {
    match IndexOf(s, '\n')
    case None => assert Lines(s) == [s];
    case Some(i) =>
      LinesAre(s[i + 1..]);
      assert Lines(s) == [s[..i]] + Lines(s[i + 1..]);
      assert Lines(s)[1..] == Lines(s[i + 1..]) && s == s[..i] + "\n" + s[i + 1..];
  }
}
