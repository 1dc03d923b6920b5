/**
 * Reading V8 stack traces: the first line gives the error type and message,
 * every further line one frame with its function name, file position and,
 * for code run through `eval`, the position inside the evaluated code.
 * Frames are written back in the same format by `formatOriginalPosition`.
 */
module Stacktrace {
  import opened Wrappers
  import opened JsString
  import opened JsSearch
  import opened JsNum
  import opened NumberText

  /** A file name with a line and a column number (NaN when missing). */
  datatype Location = Location(fileName: string, line: Num, column: Num)

  /** One parsed frame line. */
  datatype Frame = Frame(location: Location, isEval: bool, evalLocation: Option<Location>, functionName: string)

  /** A parsed stack: the error type, its message when the first line has one, and the frames. */
  datatype StackTrace = StackTrace(errorType: string, message: Option<string>, stacks: seq<Frame>)

  /** `parseInt(parts[k], 10)`, where a missing piece reads as NaN. */
  function IntPiece(parts: seq<string>, k: nat): Num {
    if k < |parts| then ParseInt(parts[k]) else NaN
  }

  /** `file:line:column`, split on `:`. */
  function LocationOf(text: string): Location {
    var parts := Split(text, ':');
    Location(parts[0], IntPiece(parts, 1), IntPiece(parts, 2))
  }

  /** The characters `.` does not match in a regular expression. */
  predicate IsLineTerminator(c: char) {
    c == '\n' || c == '\r' || c == '\U{2028}' || c == '\U{2029}'
  }

  /** The regular expression `at .*\.eval` matches somewhere in the line. */
  predicate MatchesEvalPattern(line: string) {
    exists i, j :: 0 <= i && i + 3 <= j < |line| && OccursAt(line, "at ", i) && OccursAt(line, ".eval", j)
      && forall k :: i + 3 <= k < j ==> !IsLineTerminator(line[k])
  }

  /** The frame runs code evaluated by `eval`. */
  predicate IsEval(line: string) {
    IndexOfFrom(line, "eval at", 0) != -1 || MatchesEvalPattern(line)
  }

  /** `getEvalDetails`: for an eval frame, the position between the last `, ` and the last `)`. */
  function GetEvalDetails(line: string): Option<Location> {
    if IsEval(line) then
      Some(LocationOf(Substring(line, LastIndexOf(line, ", ") + 2, LastIndexOf(line, ")"))))
    else None
  }

  /** `getFileDetails`: the position between the last `(` and the last character. */
  function GetFileDetails(line: string): Location {
    LocationOf(Substring(line, LastIndexOf(line, "(") + 1, |line| - 1))
  }

  /** `getFunctionName`: the text after the first `at ` up to the next space. */
  function GetFunctionName(line: string): string {
    var after: nat := IndexOfFrom(line, "at ", 0) + 3;
    Substring(line, after, IndexOfFrom(line, " ", after))
  }

  /** `getTypeAndMessage`: the first two pieces of the line split on `: `. */
  function GetTypeAndMessage(line: string): (string, Option<string>) {
    var parts := SplitOn(line, ": ");
    (parts[0], if |parts| > 1 then Some(parts[1]) else None)
  }

  /** `parseLine`. */
  function ParseLine(line: string): Frame {
    Frame(GetFileDetails(line), IsEval(line), GetEvalDetails(line), GetFunctionName(line))
  }

  /** `parse(error)`, given `error.stack`. */
  function Parse(stack: string): StackTrace {
    var lines := Split(stack, '\n');
    var header := GetTypeAndMessage(lines[0]);
    var frames := lines[1..];
    StackTrace(header.0, header.1, seq(|frames|, k requires 0 <= k < |frames| => ParseLine(frames[k])))
  }

  /** The name `formatOriginalPosition` prints: `(unknown)` for a missing or empty one. */
  function DisplayName(name: Option<string>): (n: string)
    ensures |n| > 0
  {
    if name.Some? && name.value != "" then name.value else "(unknown)"
  }

  function Position(source: string, line: Num, column: Num): string {
    source + ":" + NumToString(line) + ":" + NumToString(column)
  }

  /** `formatOriginalPosition(source, line, column, name)`, in the format Chrome prints. */
  function FormatOriginalPosition(source: string, line: Num, column: Num, name: Option<string>): string {
    "    at " + DisplayName(name) + " (" + Position(source, line, column) + ")"
  }

  /** stacks[k] is the first eval frame. */
  ghost predicate FirstEval(stacks: seq<Frame>, k: int) {
    0 <= k < |stacks| && stacks[k].isEval && forall l :: 0 <= l < k ==> !stacks[l].isEval
  }

  /** `getLastEvalTrace`: the first eval frame of the stack, if any. */
  method GetLastEvalTrace(stacks: seq<Frame>) returns (r: Option<Frame>)
    ensures r.None? <==> forall k :: 0 <= k < |stacks| ==> !stacks[k].isEval
    ensures r.Some? ==> exists k :: FirstEval(stacks, k) && r.value == stacks[k]
  {
    var i := 0;
    while i < |stacks|
      invariant 0 <= i <= |stacks|
      invariant forall l :: 0 <= l < i ==> !stacks[l].isEval
    {
      if stacks[i].isEval {
        assert FirstEval(stacks, i);
        return Some(stacks[i]);
      }
      i := i + 1;
    }
    return None;
  }

  /** A character that is not a digit does not occur in the digits of a number. */
  lemma {:induction false} NotInDigits(n: nat, c: char)
    requires !IsDigit(c)
    ensures c !in NatToString(n)
  {
  }

  /** `String(n)` of a natural number is its digits. */
  lemma {:induction false} NumToStringNat(n: nat)
    ensures NumToString(Finite(n as real)) == NatToString(n)
  {
    assert (n as real).Floor == n;
  }

  /** Three colon-free pieces joined by colons split back into those pieces. */
  lemma {:induction false} SplitColons(f: string, ls: string, cs: string)
    requires ':' !in f && ':' !in ls && ':' !in cs
    ensures Split(f + ":" + ls + ":" + cs, ':') == [f, ls, cs]
  {
    assert Join([ls, cs], ':') == ls + [':'] + cs;
    assert Join([f, ls, cs], ':') == f + [':'] + Join([ls, cs], ':');
    assert f + ":" + ls + ":" + cs == f + [':'] + (ls + [':'] + cs);
    SplitJoin([f, ls, cs], ':');
  }

  /** A position written with natural line and column numbers reads back as itself. */
  lemma {:induction false} LocationOfPosition(f: string, l: nat, c: nat)
    requires ':' !in f
    ensures LocationOf(Position(f, Finite(l as real), Finite(c as real))) == Location(f, Finite(l as real), Finite(c as real))
  {
    var ls := NatToString(l);
    var cs := NatToString(c);
    NumToStringNat(l);
    NumToStringNat(c);
    NotInDigits(l, ':');
    NotInDigits(c, ':');
    SplitColons(f, ls, cs);
    assert ls + "" == ls;
    assert cs + "" == cs;
    ParseIntNat(l, "");
    ParseIntNat(c, "");
  }

  /** The characters of a position with natural numbers are those of the source, digits and colons. */
  lemma {:induction false} PositionChars(f: string, l: nat, c: nat, x: char)
    requires !IsDigit(x) && x != ':' && x !in f
    ensures x !in Position(f, Finite(l as real), Finite(c as real))
  {
    NumToStringNat(l);
    NumToStringNat(c);
    NotInDigits(l, x);
    NotInDigits(c, x);
  }

  /** The file position `parseLine` reads from a formatted frame is the one written. */
  lemma {:induction false} FileDetailsOfFormatted(source: string, l: nat, c: nat, name: Option<string>)
    requires '(' !in source && ':' !in source
    ensures GetFileDetails(FormatOriginalPosition(source, Finite(l as real), Finite(c as real), name))
      == Location(source, Finite(l as real), Finite(c as real))
  {
    var pos := Position(source, Finite(l as real), Finite(c as real));
    var head := "    at " + DisplayName(name) + " ";
    FormatShape(source, Finite(l as real), Finite(c as real), name);
    PositionChars(source, l, c, '(');
    InLastParentheses(head, pos);
    LocationOfPosition(source, l, c);
  }

  /** A formatted frame is its head, then the position in parentheses. */
  lemma {:induction false} FormatShape(source: string, line: Num, column: Num, name: Option<string>)
    ensures FormatOriginalPosition(source, line, column, name)
      == ("    at " + DisplayName(name) + " ") + "(" + Position(source, line, column) + ")"
  {
  }

  /** A formatted frame is `    at `, the name, a space and the rest. */
  lemma {:induction false} FormatSplitAtName(source: string, line: Num, column: Num, name: Option<string>)
    ensures FormatOriginalPosition(source, line, column, name)
      == "    at " + DisplayName(name) + " " + ("(" + Position(source, line, column) + ")")
  {
  }

  /** The text between the last `(` and the final character, when it holds no `(` itself. */
  lemma {:induction false} InLastParentheses(head: string, pos: string)
    requires '(' !in pos
    ensures var s := head + "(" + pos + ")";
      Substring(s, LastIndexOf(s, "(") + 1, |s| - 1) == pos
  {
    var s := head + "(" + pos + ")";
    var k := |head|;
    assert s[k + 1..] == pos + ")";
    forall j | k < j < |s|
      ensures s[j] != "("[0]
    {
      assert s[j] == s[k + 1..][j - k - 1];
    }
    OccursAtChar(s, '(', k);
    LastOccurrence(s, "(", k);
    assert s[k + 1..|s| - 1] == pos;
  }

  /** The function name is read between `    at ` and the next space. */
  lemma {:induction false} FunctionNameAfterAt(n: string, rest: string)
    requires |n| > 0 && ' ' !in n
    ensures GetFunctionName("    at " + n + " " + rest) == n
  {
    var s := "    at " + n + " " + rest;
    assert s[4..7] == "at ";
    forall j | 0 <= j < 4
      ensures !OccursAt(s, "at ", j)
    {
      assert s[j] == ' ';
      assert s[j..j + 3][0] == s[j];
    }
    FirstOccurrence(s, "at ", 0, 4);
    forall j | 7 <= j < 7 + |n|
      ensures !OccursAt(s, " ", j)
    {
      assert s[j] == n[j - 7];
      OccursAtChar(s, ' ', j);
    }
    OccursAtChar(s, ' ', 7 + |n|);
    FirstOccurrence(s, " ", 7, 7 + |n|);
    assert s[7..7 + |n|] == n;
  }

  /** The function name `parseLine` reads from a formatted frame is the one written, when it has no space. */
  lemma {:induction false} FunctionNameOfFormatted(source: string, line: Num, column: Num, name: Option<string>)
    requires ' ' !in DisplayName(name)
    ensures GetFunctionName(FormatOriginalPosition(source, line, column, name)) == DisplayName(name)
  {
    FormatSplitAtName(source, line, column, name);
    FunctionNameAfterAt(DisplayName(name), "(" + Position(source, line, column) + ")");
  }

  /** A formatted frame parses back to the source, line, column and name it was written with. */
  lemma {:induction false} ParseLineOfFormatted(source: string, l: nat, c: nat, name: Option<string>)
    requires '(' !in source && ':' !in source && ' ' !in DisplayName(name)
    ensures var frame := ParseLine(FormatOriginalPosition(source, Finite(l as real), Finite(c as real), name));
      && frame.location == Location(source, Finite(l as real), Finite(c as real))
      && frame.functionName == DisplayName(name)
  {
    FileDetailsOfFormatted(source, l, c, name);
    FunctionNameOfFormatted(source, Finite(l as real), Finite(c as real), name);
  }

  /**
   * An eval frame, one whose line contains `eval at`, ending in
   * `, file:line:column)`, gives that position as its eval location.
   */
  lemma {:induction false} EvalDetailsOfLine(prefix: string, i: nat, f: string, l: nat, c: nat)
    requires OccursAt(prefix, "eval at", i)
    requires ':' !in f && ',' !in f && ')' !in f
    ensures GetEvalDetails(prefix + ", " + Position(f, Finite(l as real), Finite(c as real)) + ")")
      == Some(Location(f, Finite(l as real), Finite(c as real)))
  {
    var pos := Position(f, Finite(l as real), Finite(c as real));
    var s := prefix + ", " + pos + ")";
    assert s[i..i + 7] == prefix[i..i + 7];
    assert OccursAt(s, "eval at", i);
    assert IsEval(s);
    PositionChars(f, l, c, ',');
    PositionChars(f, l, c, ')');
    BetweenLastCommaAndParen(prefix, pos);
    LocationOfPosition(f, l, c);
  }

  /** The text between the last `, ` and the last `)`, when the tail holds neither a comma nor a `)`. */
  lemma {:induction false} BetweenLastCommaAndParen(prefix: string, pos: string)
    requires ',' !in pos && ')' !in pos
    ensures var s := prefix + ", " + pos + ")";
      Substring(s, LastIndexOf(s, ", ") + 2, LastIndexOf(s, ")")) == pos
  {
    var s := prefix + ", " + pos + ")";
    var k := |prefix|;
    assert s[k + 2..] == pos + ")";
    assert s[k..k + 2] == ", ";
    forall j | k < j < |s|
      ensures s[j] != ", "[0]
    {
      if j > k + 1 {
        assert s[j] == s[k + 2..][j - k - 2];
      }
    }
    LastOccurrence(s, ", ", k);
    OccursAtChar(s, ')', |s| - 1);
    LastOccurrence(s, ")", |s| - 1);
    assert s[k + 2..|s| - 1] == pos;
  }

  /** A header line `type: message...` gives the type and the message up to any further `: `. */
  lemma {:induction false} TypeAndMessageOfHeader(t: string, m: string)
    requires forall j :: !OccursAt(t, ": ", j)
    ensures GetTypeAndMessage(t + ": " + m) == (t, Some(SplitOn(m, ": ")[0]))
  {
    var s := t + ": " + m;
    forall j | 0 <= j < |t|
      ensures !OccursAt(s, ": ", j)
    {
      if j + 2 <= |t| {
        assert s[j..j + 2] == t[j..j + 2];
        assert !OccursAt(t, ": ", j);
      } else {
        assert s[j + 1] == ':';
        assert s[j..j + 2][1] == s[j + 1];
      }
    }
    SplitOnFirst(t, ": ", m);
  }

  /** A header line without `: ` is all type and no message. */
  lemma {:induction false} TypeWithoutMessage(line: string)
    requires forall j :: !OccursAt(line, ": ", j)
    ensures GetTypeAndMessage(line) == (line, None)
  {
    SplitOnAbsent(line, ": ");
  }

  /** `parse` reads the header from the first line and one frame from every further line. */
  lemma {:induction false} ParseOfLines(header: string, frames: seq<string>)
    requires '\n' !in header && forall k :: 0 <= k < |frames| ==> '\n' !in frames[k]
    ensures var st := Parse(Join([header] + frames, '\n'));
      && (st.errorType, st.message) == GetTypeAndMessage(header)
      && |st.stacks| == |frames|
      && forall k :: 0 <= k < |frames| ==> st.stacks[k] == ParseLine(frames[k])
  {
    var lines := [header] + frames;
    SplitJoin(lines, '\n');
    assert lines[1..] == frames;
  }
}
