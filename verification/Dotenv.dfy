/** The dotenv parser shared by the bulk-import screen and `jitenv bag import` (internal/dotenv/dotenv.go). */
module Dotenv {
  import opened Wrappers

  datatype Pair = Pair(key: string, value: string, line: nat)

  datatype ParseError = ParseError(line: nat, reason: Reason)

  datatype Reason = NoSeparator | EmptyKey | InvalidKey | UnterminatedDouble | UnterminatedSingle

  datatype Parsed = Parsed(pairs: seq<Pair>, errs: seq<ParseError>)

  // ----- pieces of a line -----------------------------------------------------------------------------------------

  /** White space as strings.TrimSpace sees it. */
  predicate IsSpace(c: char) {
    c in "\t\n\r " || c == 0x0b as char || c == 0x0c as char || c == 0x85 as char || c == 0xa0 as char
    || c == 0x1680 as char || 0x2000 as char <= c <= 0x200a as char || c == 0x2028 as char || c == 0x2029 as char
    || c == 0x202f as char || c == 0x205f as char || c == 0x3000 as char
  }

  predicate IsReturn(c: char) {
    c == '\r'
  }

  predicate IsBlankChar(c: char) {
    c == ' ' || c == '\t'
  }

  function TrimLeft(p: char -> bool, s: string): string {
    if s != "" && p(s[0]) then TrimLeft(p, s[1..]) else s
  }

  function TrimRight(p: char -> bool, s: string): string {
    if s != "" && p(s[|s| - 1]) then TrimRight(p, s[..|s| - 1]) else s
  }

  function TrimSpace(s: string): string {
    TrimRight(IsSpace, TrimLeft(IsSpace, s))
  }

  /** The position of the first occurrence. */
  function IndexOf(s: string, c: char): (r: Option<nat>)
    ensures r.Some? ==> r.value < |s| && s[r.value] == c && c !in s[..r.value]
    ensures r.None? <==> c !in s
  {
    if s == "" then None
    else if s[0] == c then Some(0)
    else
      var rest := IndexOf(s[1..], c);
      if rest.None? then None else (assert s[..rest.value + 1] == [s[0]] + s[1..][..rest.value]; Some(rest.value + 1))
  }

  function Lines(s: string): (r: seq<string>)
    ensures r != []
  {
    match IndexOf(s, '\n')
    case None => [s]
    case Some(i) => [s[..i]] + Lines(s[i + 1..])
  }

  const EXPORT := "export"

  /** The rest after a shell-style export prefix, which must be followed by white space. */
  function StripExport(line: string): Option<string> {
    if EXPORT <= line && |line| > |EXPORT| && IsBlankChar(line[|EXPORT|])
    then Some(TrimLeft(IsBlankChar, line[|EXPORT|..]))
    else None
  }

  predicate IsKeyChar(c: char, first: bool) {
    c == '_' || 'a' <= c <= 'z' || 'A' <= c <= 'Z' || (!first && '0' <= c <= '9')
  }

  predicate ValidKey(s: string) {
    s != "" && forall i | 0 <= i < |s| :: IsKeyChar(s[i], i == 0)
  }

  method IsValidEnvKey(s: string) returns (ok: bool)
    ensures ok <==> ValidKey(s)
  {
    if s == "" {
      return false;
    }
    for i := 0 to |s|
      invariant forall k | 0 <= k < i :: IsKeyChar(s[k], k == 0)
    {
      if !IsKeyChar(s[i], i == 0) {
        return false;
      }
    }
    return true;
  }

  // ----- values ---------------------------------------------------------------------------------------------------

  /** What a backslash followed by c stands for. */
  function Unescape(c: char): char {
    match c
    case 'n' => '\n'
    case 'r' => '\r'
    case 't' => '\t'
    case _ => c
  }

  /** The text up to the closing quote, escapes decoded; None without one. */
  function UpToQuote(s: string): Option<string> {
    if s == "" then None
    else if s[0] == '\\' && |s| > 1 then
      var rest := UpToQuote(s[2..]);
      if rest.None? then None else Some([Unescape(s[1])] + rest.value)
    else if s[0] == '"' then Some("")
    else
      var rest := UpToQuote(s[1..]);
      if rest.None? then None else Some([s[0]] + rest.value)
  }

  /** The position of the first inline comment. */
  function CommentStart(s: string): (r: nat)
    ensures r <= |s|
  {
    if |s| < 2 then |s| else if s[0] == ' ' && s[1] == '#' then 0 else 1 + CommentStart(s[1..])
  }

  function Unquoted(s: string): Result<string, Reason> {
    if s == "" then Ok("")
    else if s[0] == '"' then
      var text := UpToQuote(s[1..]);
      if text.Some? then Ok(text.value) else Err(UnterminatedDouble)
    else if s[0] == '\'' then
      match IndexOf(s[1..], '\'')
      case Some(end) => Ok(s[1..1 + end])
      case None => Err(UnterminatedSingle)
    else Ok(TrimRight(IsBlankChar, s[..CommentStart(s)]))
  }

  /** The result when b was read already and s is left. */
  function Continued(b: string, s: string): Option<string> {
    var rest := UpToQuote(s);
    if rest.None? then None else Some(b + rest.value)
  }

  lemma ScanStep(s: string, i: nat, b: string)
    requires i < |s|
    ensures Continued(b, s[i..]) ==
      if s[i] == '\\' && i + 1 < |s| then Continued(b + [Unescape(s[i + 1])], s[i + 2..])
      else if s[i] == '"' then Some(b)
      else Continued(b + [s[i]], s[i + 1..])
  {
    assert s[i..][1..] == s[i + 1..];
    if i + 1 < |s| {
      assert s[i..][2..] == s[i + 2..];
    }
    assert forall x: char, r: string :: b + ([x] + r) == (b + [x]) + r;
    assert b + "" == b;
  }

  lemma ScanStarts(s: string)
    ensures Continued("", s) == UpToQuote(s)
  {
    assert forall r: string :: "" + r == r;
  }

  /** unquoteValue. */
  method UnquoteValue(s: string) returns (r: Result<string, Reason>)
    ensures r == Unquoted(s)
  {
    if s == "" {
      return Ok("");
    }
    if s[0] == '"' {
      var b := "";
      var i := 1;
      ScanStarts(s[1..]);
      while i < |s|
        invariant 1 <= i <= |s|
        invariant UpToQuote(s[1..]) == Continued(b, s[i..])
        decreases |s| - i
      {
        var c := s[i];
        ScanStep(s, i, b);
        if c == '\\' && i + 1 < |s| {
          b := b + [Unescape(s[i + 1])];
          i := i + 2;
          continue;
        }
        if c == '"' {
          return Ok(b);
        }
        b := b + [c];
        i := i + 1;
      }
      return Err(UnterminatedDouble);
    }
    if s[0] == '\'' {
      match IndexOf(s[1..], '\'')
      case Some(end) => return Ok(s[1..1 + end]);
      case None => return Err(UnterminatedSingle);
    }
    return Ok(TrimRight(IsBlankChar, s[..CommentStart(s)]));
  }

  // ----- lines ----------------------------------------------------------------------------------------------------

  datatype LineResult = Skip | Bad(reason: Reason) | Good(key: string, value: string)

  function ParseLine(raw: string): LineResult {
    var trimmed := TrimSpace(TrimRight(IsReturn, raw));
    if trimmed == "" || trimmed[0] == '#' then Skip
    else
      var stripped := StripExport(trimmed);
      var line := if stripped.Some? then stripped.value else trimmed;
      match IndexOf(line, '=')
      case None => Bad(NoSeparator)
      case Some(eq) =>
        var key := TrimSpace(line[..eq]);
        if key == "" then Bad(EmptyKey)
        else if !ValidKey(key) then Bad(InvalidKey)
        else
          match Unquoted(TrimLeft(IsBlankChar, line[eq + 1..]))
          case Err(e) => Bad(e)
          case Ok(v) => Good(key, v)
  }

  /** What the first n lines contribute: pairs in order, and one error for each line neither skipped nor good. */
  function ParseLines(lines: seq<string>, n: nat): Parsed
    requires n <= |lines|
  {
    if n == 0 then Parsed([], [])
    else
      var init := ParseLines(lines, n - 1);
      match ParseLine(lines[n - 1])
      case Skip => init
      case Bad(e) => init.(errs := init.errs + [ParseError(n, e)])
      case Good(k, v) => init.(pairs := init.pairs + [Pair(k, v, n)])
  }

  method Parse(input: string) returns (r: Parsed)
    ensures r == ParseLines(Lines(input), |Lines(input)|)
  {
    hide IsSpace, IsReturn, TrimLeft, TrimRight, TrimSpace, StripExport, IndexOf, ValidKey, Unquoted, Lines;
    var pairs, errs := [], [];
    var lines := Lines(input);
    for i := 0 to |lines|
      invariant Parsed(pairs, errs) == ParseLines(lines, i)
    {
      var lineNo := i + 1;
      var line := TrimSpace(TrimRight(IsReturn, lines[i]));
      assert line == TrimSpace(TrimRight(IsReturn, lines[i]));
      if line == "" || line[0] == '#' {
        continue;
      }
      var stripped := StripExport(line);
      if stripped.Some? {
        line := stripped.value;
      }
      var eq := IndexOf(line, '=');
      if eq.None? {
        errs := errs + [ParseError(lineNo, NoSeparator)];
        continue;
      }
      var key := TrimSpace(line[..eq.value]);
      if key == "" {
        errs := errs + [ParseError(lineNo, EmptyKey)];
        continue;
      }
      var valid := IsValidEnvKey(key);
      if !valid {
        errs := errs + [ParseError(lineNo, InvalidKey)];
        continue;
      }
      var val := UnquoteValue(TrimLeft(IsBlankChar, line[eq.value + 1..]));
      if val.Err? {
        errs := errs + [ParseError(lineNo, val.error)];
        continue;
      }
      pairs := pairs + [Pair(key, val.value, lineNo)];
    }
    return Parsed(pairs, errs);
  }

  // ----- the round trip -------------------------------------------------------------------------------------------

  /** A character inside double quotes, by the documented escapes. */
  function EscapeChar(c: char): string {
    match c
    case '\n' => "\\n"
    case '\r' => "\\r"
    case '\t' => "\\t"
    case '\\' => "\\\\"
    case '"' => "\\\""
    case _ => [c]
  }

  function Escape(s: string): string {
    if s == "" then "" else EscapeChar(s[0]) + Escape(s[1..])
  }

  function QuotedLine(k: string, v: string): string {
    k + "=" + "\"" + Escape(v) + "\""
  }

  lemma OneCharReadsBack(c: char, tail: string)
    ensures UpToQuote(EscapeChar(c) + tail) ==
      var rest := UpToQuote(tail);
      if rest.None? then None else Some([c] + rest.value)
  {
    var all := EscapeChar(c) + tail;
    if |EscapeChar(c)| == 2 {
      assert all[2..] == tail && all[0] == '\\' && Unescape(all[1]) == c;
    } else {
      assert all[1..] == tail && all[0] == c;
    }
  }

  lemma Regroup(a: string, b: string, c: string)
    ensures (a + b) + c == a + (b + c)
  {
  }

  lemma {:induction false} EscapesReadBack(v: string, rest: string)
    ensures UpToQuote(Escape(v) + ("\"" + rest)) == Some(v)
  {
    var closing := "\"" + rest;
    if v == "" {
      assert Escape(v) + closing == closing && closing[0] == '"';
    } else {
      EscapesReadBack(v[1..], rest);
      OneCharReadsBack(v[0], Escape(v[1..]) + closing);
      hide EscapeChar, UpToQuote;
      Regroup(EscapeChar(v[0]), Escape(v[1..]), closing);
      assert [v[0]] + v[1..] == v;
    }
  }

  lemma {:induction false} EscapesKeepToOneLine(v: string)
    ensures '\n' !in Escape(v)
  {
    if v != "" {
      EscapesKeepToOneLine(v[1..]);
    }
  }

  lemma NothingToTrim(p: char -> bool, s: string)
    requires s != "" && !p(s[0]) && !p(s[|s| - 1])
    ensures TrimLeft(p, s) == s && TrimRight(p, s) == s
  {
  }

  lemma KeyHasNoOther(k: string, c: char)
    requires ValidKey(k) && !IsKeyChar(c, false)
    ensures c !in k
  {
    assert forall i | 0 <= i < |k| :: IsKeyChar(k[i], i == 0) && IsKeyChar(k[i], false);
  }

  lemma LineIsTrimmed(k: string, quoted: string)
    requires ValidKey(k) && quoted != "" && quoted[|quoted| - 1] == '"'
    ensures TrimSpace(TrimRight(IsReturn, k + "=" + quoted)) == k + "=" + quoted
  {
    var line := k + "=" + quoted;
    assert line[0] == k[0] && line[|line| - 1] == '"' && IsKeyChar(k[0], true);
    assert !IsReturn(line[0]) && !IsReturn(line[|line| - 1]) && !IsSpace(line[0]) && !IsSpace(line[|line| - 1]);
    hide IsSpace, IsReturn, TrimLeft, TrimRight;
    NothingToTrim(IsReturn, line);
    NothingToTrim(IsSpace, line);
  }

  lemma QuotedValueReads(v: string)
    ensures var quoted := "\"" + Escape(v) + "\"";
            Unquoted(TrimLeft(IsBlankChar, quoted)) == Ok(v) && TrimLeft(IsBlankChar, quoted) == quoted
  {
    var quoted := "\"" + Escape(v) + "\"";
    NothingToTrim(IsBlankChar, quoted);
    assert quoted[1..] == Escape(v) + ("\"" + "");
    EscapesReadBack(v, "");
  }

  /** A valid key written with a double-quoted value is read back from its line. */
  lemma QuotedLineParses(k: string, v: string)
    requires ValidKey(k)
    ensures ParseLine(QuotedLine(k, v)) == Good(k, v) && '\n' !in QuotedLine(k, v)
  {
    hide Escape, Unquoted, IsSpace, TrimLeft, TrimRight, StripExport, IndexOf;
    var quoted := "\"" + Escape(v) + "\"";
    var line := k + "=" + quoted;
    assert QuotedLine(k, v) == line;
    LineIsTrimmed(k, quoted);
    assert k + "=" + quoted == k + ("=" + quoted);
    KeyIsNotExport(k, "=" + quoted);
    KeyHasNoOther(k, '=');
    KeyHasNoOther(k, '\n');
    KeyHasNoOther(k, '#');
    FirstAfter(k, '=', quoted);
    assert line[..|k|] == k && line[|k| + 1..] == quoted && line[0] == k[0];
    KeyIsTrimmed(k);
    QuotedValueReads(v);
    EscapesKeepToOneLine(v);
  }

  lemma KeyIsTrimmed(k: string)
    requires ValidKey(k)
    ensures TrimSpace(k) == k
  {
    assert IsKeyChar(k[0], true) && IsKeyChar(k[|k| - 1], |k| == 1);
    NothingToTrim(IsSpace, k);
  }

  lemma KeyIsNotExport(k: string, rest: string)
    requires ValidKey(k) && rest != "" && rest[0] == '='
    ensures StripExport(k + rest).None?
  {
    var line := k + rest;
    assert |k| < |EXPORT| ==> line[|k|] == '=';
    assert |k| > |EXPORT| ==> line[|EXPORT|] == k[|EXPORT|] && IsKeyChar(k[|EXPORT|], false);
    assert EXPORT[0] != '=' && EXPORT[1] != '=' && EXPORT[2] != '=';
    assert EXPORT[3] != '=' && EXPORT[4] != '=' && EXPORT[5] != '=';
  }

  lemma {:induction false} FirstAfter(a: string, c: char, rest: string)
    requires c !in a
    ensures IndexOf(a + [c] + rest, c) == Some(|a|)
  {
    var s := a + [c] + rest;
    if a == "" {
      assert s[0] == c;
    } else {
      FirstAfter(a[1..], c, rest);
      assert a[0] in a && s[1..] == a[1..] + [c] + rest;
    }
  }

  function JoinLines(lines: seq<string>): string {
    if lines == [] then "" else if |lines| == 1 then lines[0] else lines[0] + "\n" + JoinLines(lines[1..])
  }

  lemma SplitsAfterFirst(first: string, rest: string)
    requires '\n' !in first
    ensures Lines(first + "\n" + rest) == [first] + Lines(rest)
  {
    FirstAfter(first, '\n', rest);
    var text := first + "\n" + rest;
    assert text[..|first|] == first && text[|first| + 1..] == rest;
  }

  lemma {:induction false} LinesReadBack(lines: seq<string>)
    requires lines != [] && forall l | l in lines :: '\n' !in l
    ensures Lines(JoinLines(lines)) == lines
  {
    if |lines| == 1 {
      assert lines == [lines[0]];
    } else {
      LinesReadBack(lines[1..]);
      SplitsAfterFirst(lines[0], JoinLines(lines[1..]));
      assert lines == [lines[0]] + lines[1..];
    }
  }

  function Written(kvs: seq<(string, string)>): seq<string> {
    seq(|kvs|, i requires 0 <= i < |kvs| => QuotedLine(kvs[i].0, kvs[i].1))
  }

  function Numbered(kvs: seq<(string, string)>, n: nat): seq<Pair>
    requires n <= |kvs|
  {
    seq(n, i requires 0 <= i < n => Pair(kvs[i].0, kvs[i].1, i + 1))
  }

  lemma WrittenLineParses(kvs: seq<(string, string)>, i: nat)
    requires i < |kvs| && forall kv | kv in kvs :: ValidKey(kv.0)
    ensures ParseLine(Written(kvs)[i]) == Good(kvs[i].0, kvs[i].1) && '\n' !in Written(kvs)[i]
  {
    hide ParseLine, QuotedLine, ValidKey;
    assert kvs[i] in kvs;
    QuotedLineParses(kvs[i].0, kvs[i].1);
  }

  lemma {:induction false} WrittenLinesParse(kvs: seq<(string, string)>, n: nat)
    requires n <= |kvs| && forall kv | kv in kvs :: ValidKey(kv.0)
    ensures ParseLines(Written(kvs), n) == Parsed(Numbered(kvs, n), [])
  {
    hide ParseLine, ValidKey;
    if n > 0 {
      WrittenLinesParse(kvs, n - 1);
      WrittenLineParses(kvs, n - 1);
      hide Written, QuotedLine;
      assert Numbered(kvs, n) == Numbered(kvs, n - 1) + [Pair(kvs[n - 1].0, kvs[n - 1].1, n)];
    }
  }

  /** For every list of valid keys and arbitrary values, one double-quoted line each parses back to exactly that list,
      without errors. */
  lemma QuotedRoundTrip(kvs: seq<(string, string)>)
    requires forall kv | kv in kvs :: ValidKey(kv.0)
    ensures var lines := Lines(JoinLines(Written(kvs)));
            ParseLines(lines, |lines|) == Parsed(Numbered(kvs, |kvs|), [])
  {
    if kvs == [] {
      assert Lines("") == [""] && ParseLine("") == Skip;
      assert Written(kvs) == [] && ParseLines([""], 0) == Parsed([], []);
    } else {
      forall i | 0 <= i < |kvs| ensures '\n' !in Written(kvs)[i] {
        WrittenLineParses(kvs, i);
      }
      LinesReadBack(Written(kvs));
      WrittenLinesParse(kvs, |kvs|);
    }
  }
}
