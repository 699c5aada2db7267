/**
 * The body of the exec request built by `getContainerWsData`: the command line is split on
 * white space, printed as a Go-quoted list, the list's spaces are turned into ", ", and the
 * result is placed in a fixed JSON template.
 */
module Negotiator {
  import opened Wrappers
  import opened GoStrings
  import opened GoQuote

  /** The template text before the command array. */
  const BodyPrefix := "{ \"attachStdin\": true, \"attachStdout\": true, \"command\": "
  /** The template text after the command array. */
  const BodySuffix := ", \"tty\": true }"

  /** The command array: `strings.Replace(fmt.Sprintf("%q", strings.Fields(cmd)), " ", ", ", -1)`. */
  function CommandArray(sendCommand: string): string {
    ReplaceAll(QuoteSlice(Fields(sendCommand)), ' ', ", ")
  }

  /** The JSON body POSTed to the container's execute URL. */
  function ExecRequestBody(sendCommand: string): string {
    BodyPrefix + CommandArray(sendCommand) + BodySuffix
  }

  // ---------------------------------------------------------------------------
  // Reading a body back

  /** Reads `q1, q2, ..., qn]`: quoted strings separated by ", " and closed by "]". */
  function ParseElements(s: string): Option<seq<string>>
    decreases |s|
  {
    match ParseQuoted(s)
    case None => None
    case Some((t, rest)) =>
      if rest == "]" then Some([t])
      else if |rest| >= 2 && rest[..2] == ", " then
        match ParseElements(rest[2..])
        case None => None
        case Some(ts) => Some([t] + ts)
      else None
  }

  /** Reads an array of quoted strings written as the request body writes it. */
  function ParseArray(s: string): Option<seq<string>> {
    if s == "[]" then Some([])
    else if |s| > 0 && s[0] == '[' then ParseElements(s[1..])
    else None
  }

  /** The command tokens carried by a request body, if it has the template's shape. */
  function DecodeCommand(body: string): Option<seq<string>> {
    if |body| >= |BodyPrefix| + |BodySuffix|
      && body[..|BodyPrefix|] == BodyPrefix
      && body[|body| - |BodySuffix|..] == BodySuffix
    then ParseArray(body[|BodyPrefix|..|body| - |BodySuffix|])
    else None
  }

  // ---------------------------------------------------------------------------
  // Properties

  /** Quoting every token keeps the list free of spaces, element by element. */
  lemma {:induction false} QuoteEachNoSpace(ts: seq<string>)
    requires forall i :: 0 <= i < |ts| ==> IsToken(ts[i])
    ensures forall i :: 0 <= i < |ts| ==> ' ' !in QuoteEach(ts)[i]
    decreases |ts|
  {
    if ts != [] {
      QuoteEachNoSpace(ts[1..]);
      assert ' ' !in ts[0] by {
        assert forall k :: 0 <= k < |ts[0]| ==> ts[0][k] != ' ';
      }
      QuoteNoSpace(ts[0]);
      forall i | 0 <= i < |ts| ensures ' ' !in QuoteEach(ts)[i] {
        if i > 0 { assert QuoteEach(ts)[i] == QuoteEach(ts[1..])[i - 1]; }
      }
    }
  }

  /** Replacing spaces in a space-joined list of space-free strings only rewrites the separators. */
  lemma {:induction false} ReplaceSeparators(qs: seq<string>)
    requires forall i :: 0 <= i < |qs| ==> ' ' !in qs[i]
    ensures ReplaceAll(Join(qs, " "), ' ', ", ") == Join(qs, ", ")
    decreases |qs|
  {
    if |qs| == 1 {
      ReplaceAllAbsent(qs[0], ' ', ", ");
    } else if |qs| > 1 {
      ReplaceSeparators(qs[1..]);
      ReplaceAllAbsent(qs[0], ' ', ", ");
      ReplaceAllAppend(qs[0] + " ", Join(qs[1..], " "), ' ', ", ");
      ReplaceAllAppend(qs[0], " ", ' ', ", ");
      assert ReplaceAll(" ", ' ', ", ") == ", ";
    }
  }

  /**
   * The command array is "[" + the quoted tokens joined by ", " + "]": one quoted element per
   * token, in order, and the ", " rewrite touches only the separators.
   */
  lemma CommandArrayShape(sendCommand: string)
    ensures CommandArray(sendCommand) == "[" + Join(QuoteEach(Fields(sendCommand)), ", ") + "]"
  {
    var qs := QuoteEach(Fields(sendCommand));
    QuoteEachNoSpace(Fields(sendCommand));
    ReplaceSeparators(qs);
    ReplaceAllAppend("[" + Join(qs, " "), "]", ' ', ", ");
    ReplaceAllAppend("[", Join(qs, " "), ' ', ", ");
    assert ReplaceAll("[", ' ', ", ") == "[";
    assert ReplaceAll("]", ' ', ", ") == "]";
  }

  /** The command array is "[]" exactly when the command line is empty or all white space. */
  lemma CommandArrayEmpty(sendCommand: string)
    ensures CommandArray(sendCommand) == "[]" <==> AllSpace(sendCommand)
  {
    CommandArrayShape(sendCommand);
    FieldsEmpty(sendCommand);
    var ts := Fields(sendCommand);
    if ts != [] {
      var j := Join(QuoteEach(ts), ", ");
      JoinQuotedLength(ts, ", ");
      assert |"[" + j + "]"| > 2;
    }
  }

  lemma {:induction false} JoinQuotedLength(ts: seq<string>, sep: string)
    requires ts != []
    ensures |Join(QuoteEach(ts), sep)| >= 2
    decreases |ts|
  {
    if |ts| > 1 {
      assert QuoteEach(ts)[1..] == QuoteEach(ts[1..]);
    }
  }

  /** The elements written after "[" are read back as the tokens they quote. */
  lemma {:induction false} ParseJoined(ts: seq<string>)
    requires ts != []
    ensures ParseElements(Join(QuoteEach(ts), ", ") + "]") == Some(ts)
    decreases |ts|
  {
    var q := Quote(ts[0]);
    var qs := QuoteEach(ts);
    if |ts| == 1 {
      QuoteRoundTrip(ts[0], "]");
      assert qs == [q];
      assert Join(qs, ", ") + "]" == q + "]";
      assert ts == [ts[0]];
    } else {
      var tail := Join(QuoteEach(ts[1..]), ", ") + "]";
      assert qs[1..] == QuoteEach(ts[1..]);
      assert Join(qs, ", ") + "]" == q + (", " + tail);
      QuoteRoundTrip(ts[0], ", " + tail);
      ParseJoined(ts[1..]);
      assert (", " + tail)[..2] == ", " && (", " + tail)[2..] == tail;
      assert (", " + tail) != "]";
      assert ts == [ts[0]] + ts[1..];
    }
  }

  /** Reading the command array back gives exactly the command's fields. */
  lemma CommandArrayRoundTrip(sendCommand: string)
    ensures ParseArray(CommandArray(sendCommand)) == Some(Fields(sendCommand))
  {
    var ts := Fields(sendCommand);
    CommandArrayShape(sendCommand);
    if ts == [] {
      assert Join(QuoteEach(ts), ", ") == [];
    } else {
      var a := CommandArray(sendCommand);
      JoinQuotedLength(ts, ", ");
      ParseJoined(ts);
      assert a[1..] == Join(QuoteEach(ts), ", ") + "]";
      assert a != "[]";
    }
  }

  /**
   * Round trip of the whole request body: the body carries the command line's tokens, in
   * order, and nothing else varies.
   */
  lemma ExecRequestBodyRoundTrip(sendCommand: string)
    ensures DecodeCommand(ExecRequestBody(sendCommand)) == Some(Fields(sendCommand))
  {
    var a := CommandArray(sendCommand);
    var body := ExecRequestBody(sendCommand);
    assert body[..|BodyPrefix|] == BodyPrefix;
    assert body[|body| - |BodySuffix|..] == BodySuffix;
    assert body[|BodyPrefix|..|body| - |BodySuffix|] == a;
    CommandArrayRoundTrip(sendCommand);
  }

  /** Two command lines give the same request body exactly when they have the same fields. */
  lemma ExecRequestBodySameFields(a: string, b: string)
    ensures ExecRequestBody(a) == ExecRequestBody(b) <==> Fields(a) == Fields(b)
  {
    ExecRequestBodyRoundTrip(a);
    ExecRequestBodyRoundTrip(b);
  }

  /**
   * A command line made of tokens separated by single spaces, such as "ls -la /tmp", is sent
   * as those tokens, each quoted, joined by ", " (["ls", "-la", "/tmp"]).
   */
  lemma CommandArrayOfJoin(ts: seq<string>)
    requires forall i :: 0 <= i < |ts| ==> IsToken(ts[i])
    ensures CommandArray(Join(ts, " ")) == "[" + Join(QuoteEach(ts), ", ") + "]"
  {
    FieldsOfJoin(ts);
    CommandArrayShape(Join(ts, " "));
  }
  /** A blank command line is still sent, as an empty command array in the fixed template. */
  lemma ExecRequestBodyBlank(sendCommand: string)
    requires AllSpace(sendCommand)
    ensures ExecRequestBody(sendCommand) == "{ \"attachStdin\": true, \"attachStdout\": true, \"command\": [], \"tty\": true }"
  {
    CommandArrayEmpty(sendCommand);
  }

  /** The body sent for the command line "ls -la /tmp": its three words, quoted, in the template. */
  lemma ExecRequestBodyExample(sendCommand: string)
    requires sendCommand == "ls -la /tmp"
    ensures ExecRequestBody(sendCommand) == BodyPrefix + "[\"ls\", \"-la\", \"/tmp\"]" + BodySuffix
  {
    CommandArrayExample(sendCommand);
  }

  /** The command array for "ls -la /tmp": its three words, each quoted, joined by ", ". */
  lemma CommandArrayExample(sendCommand: string)
    requires sendCommand == "ls -la /tmp"
    ensures CommandArray(sendCommand) == "[\"ls\", \"-la\", \"/tmp\"]"
  {
    var ts := ["ls", "-la", "/tmp"];
    assert ts[1..] == ["-la", "/tmp"] && ts[1..][1..] == ["/tmp"];
    assert IsToken(ts[0]) && IsToken(ts[1]) && IsToken(ts[2]);
    assert Join(ts, " ") == sendCommand;
    CommandArrayOfJoin(ts);
    ExampleQuoted(ts);
  }

  /** The three words of the example, quoted and joined as the list is printed. */
  lemma ExampleQuoted(ts: seq<string>)
    requires ts == ["ls", "-la", "/tmp"]
    ensures "[" + Join(QuoteEach(ts), ", ") + "]" == "[\"ls\", \"-la\", \"/tmp\"]"
  {
    assert Quote(ts[0]) == "\"ls\"" by { QuotePlain(ts[0]); }
    assert Quote(ts[1]) == "\"-la\"" by { QuotePlain(ts[1]); }
    assert Quote(ts[2]) == "\"/tmp\"" by { QuotePlain(ts[2]); }
    QuoteEachOfThree(ts);
    ExampleJoined(QuoteEach(ts));
  }

  /** Three quoted words joined by ", ", written out. */
  lemma ExampleJoined(qs: seq<string>)
    requires qs == ["\"ls\"", "\"-la\"", "\"/tmp\""]
    ensures "[" + Join(qs, ", ") + "]" == "[\"ls\", \"-la\", \"/tmp\"]"
  {
    assert Join(qs[2..], ", ") == qs[2];
    assert qs[1..][1..] == qs[2..];
    assert Join(qs[1..], ", ") == qs[1] + ", " + qs[2];
  }

  /** Quoting a list of three strings, written out. */
  lemma QuoteEachOfThree(ts: seq<string>)
    requires |ts| == 3
    ensures QuoteEach(ts) == [Quote(ts[0]), Quote(ts[1]), Quote(ts[2])]
  {
    assert QuoteEach(ts[2..]) == [Quote(ts[2])];
    assert ts[1..][1..] == ts[2..];
    assert QuoteEach(ts[1..]) == [Quote(ts[1]), Quote(ts[2])];
  }
}
