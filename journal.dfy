/** The `journalctl` log reader: the argument vector built from the options,
    the framer that turns stdout chunks into newline-delimited JSON records
    (carrying a partial trailing line over in `buffer`), the record decoder
    `parseLine`, the leftover handling at end of stdout and the terminal
    result built from the collected error strings. */
module Journal {
  import opened Js
  import opened Text
  import opened Results
  import Assertions

  // ---------------------------------------------------------------------------
  // Options and the argument vector

  /** Absent `follow` and `pager` read as false; an absent or `null` cursor is
      `None`; an absent limit is `None`. */
  datatype Options = Options(unit: string, follow: bool, limit: Option<int>, pager: bool, cursor: Option<string>)

  /** `if (limit)`: a number is truthy unless it is zero. */
  predicate LimitGiven(o: Options) { o.limit.Some? && o.limit.value != 0 }

  /** `if (cursor)`: a string is truthy unless it is empty. */
  predicate CursorGiven(o: Options) { o.cursor.Some? && o.cursor.value != "" }

  const AfterCursor := "--after-cursor="

  /** The arguments passed to `journalctl`, in the order they are pushed. */
  function ArgVector(o: Options): seq<string>
  {
    ["-u", o.unit]
    + (if o.follow then ["-f"] else [])
    + (if LimitGiven(o) then ["-n", IntToString(o.limit.value)] else [])
    + (if !o.pager then ["--no-pager"] else [])
    + (if CursorGiven(o) then [AfterCursor + o.cursor.value] else [])
    + ["--output=json"]
  }

  /** The flags between `-u unit` and `--output=json`. */
  function Flags(o: Options): seq<string>
  {
    (if o.follow then ["-f"] else [])
    + (if LimitGiven(o) then ["-n", IntToString(o.limit.value)] else [])
    + (if !o.pager then ["--no-pager"] else [])
    + (if CursorGiven(o) then [AfterCursor + o.cursor.value] else [])
  }

  lemma ArgVectorSplits(o: Options)
    ensures ArgVector(o) == ["-u", o.unit] + Flags(o) + ["--output=json"]
  {
  }

  /** The argument vector always starts with `-u unit` and ends with
      `--output=json`, with one argument per flag in between (two for the
      limit). */
  lemma ArgVectorFrame(o: Options)
    ensures var r := ArgVector(o);
      && |r| >= 3 && r[0] == "-u" && r[1] == o.unit && r[|r| - 1] == "--output=json"
      && r[2..|r| - 1] == Flags(o)
      && |r| == 3 + (if o.follow then 1 else 0) + (if LimitGiven(o) then 2 else 0)
                  + (if !o.pager then 1 else 0) + (if CursorGiven(o) then 1 else 0)
  {
    ArgVectorSplits(o);
    var r := ArgVector(o);
    assert r[2..|r| - 1] == Flags(o);
  }

  /** The digits of a number are none of the flags. */
  lemma LimitTextIsNoFlag(n: int)
    ensures var s := IntToString(n);
      s != "-f" && s != "-n" && s != "--no-pager" && s != "--output=json"
      && (|s| < |AfterCursor| || s[..|AfterCursor|] != AfterCursor)
  {
    var s := IntToString(n);
    if |s| >= 2 {
      assert '0' <= s[1] <= '9';
      assert "-f"[1] == 'f' && "-n"[1] == 'n' && "--no-pager"[1] == '-' && "--output=json"[1] == '-';
      assert AfterCursor[1] == '-';
      if |s| >= |AfterCursor| { assert s[..|AfterCursor|][1] == s[1]; }
    }
  }

  /** Each flag is present exactly when its option asks for it, and the
      limit's digits follow `-n`. */
  lemma ArgVectorFlags(o: Options)
    ensures var fl := Flags(o);
      && ("-f" in fl <==> o.follow)
      && ("-n" in fl <==> LimitGiven(o))
      && ("--no-pager" in fl <==> !o.pager)
      && (LimitGiven(o) ==> exists i :: 0 <= i < |fl| - 1 && fl[i] == "-n" && fl[i + 1] == IntToString(o.limit.value))
      && (CursorGiven(o) ==> AfterCursor + o.cursor.value in fl)
      && ((exists i :: 0 <= i < |fl| && |fl[i]| >= |AfterCursor| && fl[i][..|AfterCursor|] == AfterCursor) ==> CursorGiven(o))
  {
    var f := if o.follow then ["-f"] else [];
    var n := if LimitGiven(o) then ["-n", IntToString(o.limit.value)] else [];
    var p := if !o.pager then ["--no-pager"] else [];
    var c := if CursorGiven(o) then [AfterCursor + o.cursor.value] else [];
    var fl := Flags(o);
    assert fl == f + n + p + c;
    if LimitGiven(o) {
      LimitTextIsNoFlag(o.limit.value);
      assert fl[|f|] == "-n" && fl[|f| + 1] == IntToString(o.limit.value);
    }
    if CursorGiven(o) {
      var a := AfterCursor + o.cursor.value;
      assert a[..|AfterCursor|] == AfterCursor;
      assert a != "-f" && a != "-n" && a != "--no-pager" by { assert |a| > 10; }
    }
    if LimitGiven(o) {
      LimitTextIsNoFlag(o.limit.value);
    }
    assert |"-f"| < |AfterCursor| && |"-n"| < |AfterCursor| && |"--no-pager"| < |AfterCursor|;
  }

  // ---------------------------------------------------------------------------
  // Records and their decoding

  /** A JSON value, as `JSON.parse` returns it (numbers as integers). */
  datatype Json =
    | JNull
    | JBool(b: bool)
    | JNumber(n: int)
    | JString(s: string)
    | JArray(elems: seq<Json>)
    | JObject(fields: map<string, Json>)

  /** `JSON.parse`, taken as given: the parsed value, or the message of the
      `SyntaxError` it throws. */
  type JsonParser = string -> Result<Json, string>

  /** `{message, cursor}`: one journal entry. */
  datatype Record = Record(message: string, cursor: string)

  /** Identifiers of `Object` and `Array`, for the prototype chains of parsed values. */
  const ObjectCtor: nat := 0
  const ArrayCtor: nat := 1

  /** `String(value)` for a parsed value: arrays join their elements with
      commas (null becoming empty), objects print as "[object Object]". */
  function JsonText(j: Json): string
    decreases j, 1
  {
    match j
    case JNull => "null"
    case JBool(b) => if b then "true" else "false"
    case JNumber(n) => IntToString(n)
    case JString(s) => s
    case JArray(es) => ElementsText(es)
    case JObject(_) => "[object Object]"
  }

  function ElementsText(es: seq<Json>): string
    decreases es, 0
  {
    if es == [] then ""
    else
      (if es[0].JNull? then "" else JsonText(es[0]))
      + (if |es| == 1 then "" else "," + ElementsText(es[1..]))
  }

  /** The JavaScript value of a parsed JSON value. */
  function ToJs(j: Json): JsValue
  {
    match j
    case JNull => Null
    case JBool(b) => Bool(b)
    case JNumber(n) => Number(n)
    case JString(s) => Str(s)
    case JArray(_) => Object([ArrayCtor, ObjectCtor], JsonText(j))
    case JObject(_) => Object([ObjectCtor], JsonText(j))
  }

  /** `line[key]` on a parsed value: reading a property of `null` throws;
      other values without that own property give `undefined`. */
  function Property(j: Json, key: string): (r: Completion<JsValue>)
    ensures r.Throw? <==> j.JNull?
  {
    match j
    case JNull => Throw(TypeError("Cannot read properties of null (reading '" + key + "')"))
    case JObject(m) => Normal(if key in m then ToJs(m[key]) else Undefined)
    case _ => Normal(Undefined)
  }

  /** A parsed line that `parseLine` accepts: an object whose `MESSAGE` and
      `__CURSOR` are both strings. */
  predicate WellFormed(j: Json) {
    && j.JObject?
    && "MESSAGE" in j.fields && j.fields["MESSAGE"].JString?
    && "__CURSOR" in j.fields && j.fields["__CURSOR"].JString?
  }

  /** The checks `parseLine` applies to the parsed value: both fields must be
      strings; a `SyntaxError` when the text was not JSON, a `TypeError` when a
      field is missing or not a string. */
  function Decode(parsed: Result<Json, string>): (r: Completion<Record>)
    ensures r.Normal? <==> parsed.Ok? && WellFormed(parsed.val)
    ensures r.Normal? ==> r.value == Record(parsed.val.fields["MESSAGE"].s, parsed.val.fields["__CURSOR"].s)
    ensures parsed.Err? ==> r == Throw(SyntaxError(parsed.err))
    ensures parsed.Ok? && r.Throw? ==> r.exc.TypeError?
  {
    match parsed
    case Err(m) => Throw(SyntaxError(m))
    case Ok(j) =>
      match Property(j, "MESSAGE")
      case Throw(e) => Throw(e)
      case Normal(message) =>
        match Assertions.AssertTypeOf(message, [Assertions.TString])
        case Throw(e) => Throw(e)
        case Normal(_) =>
          match Property(j, "__CURSOR")
          case Throw(e) => Throw(e)
          case Normal(cursor) =>
            match Assertions.AssertTypeOf(cursor, [Assertions.TString])
            case Throw(e) => Throw(e)
            case Normal(_) => Normal(Record(message.s, cursor.s))
  }

  /** `parseLine(str)`. */
  function ParseLine(str: string, parse: JsonParser): Completion<Record>
  {
    Decode(parse(str))
  }

  /** Evaluating calls in order, as `Array.prototype.map` does: the values of
      all of them, or the exception of the first one that throws. */
  function Sequence<R>(cs: seq<Completion<R>>): (r: Completion<seq<R>>)
    ensures r.Normal? ==> |r.value| == |cs|
    decreases |cs|
  {
    if cs == [] then Normal([])
    else if cs[0].Throw? then Throw(cs[0].exc)
    else
      match Sequence(cs[1..])
      case Throw(e) => Throw(e)
      case Normal(vs) => Normal([cs[0].value] + vs)
  }

  /** The mapped calls complete normally exactly when each one does, and then
      yield their values in order; otherwise the exception is that of the first
      call that throws, all earlier ones having completed. */
  lemma {:induction false} SequenceSpec<R>(cs: seq<Completion<R>>)
    ensures Sequence(cs).Normal? <==> forall i :: 0 <= i < |cs| ==> cs[i].Normal?
    ensures Sequence(cs).Normal? ==> forall i :: 0 <= i < |cs| ==> Sequence(cs).value[i] == cs[i].value
    ensures Sequence(cs).Throw? ==>
      exists k :: 0 <= k < |cs| && cs[k].Throw? && Sequence(cs).exc == cs[k].exc
        && forall i :: 0 <= i < k ==> cs[i].Normal?
    decreases |cs|
  {
    if cs != [] {
      SequenceSpec(cs[1..]);
      var tail := cs[1..];
      assert forall i :: 1 <= i < |cs| ==> cs[i] == tail[i - 1];
      if cs[0].Normal? && Sequence(tail).Throw? {
        var k :| 0 <= k < |tail| && tail[k].Throw? && Sequence(tail).exc == tail[k].exc
          && forall i :: 0 <= i < k ==> tail[i].Normal?;
        assert cs[k + 1] == tail[k];
        assert forall i :: 1 <= i < k + 1 ==> cs[i] == tail[i - 1];
      }
      if Sequence(cs).Throw? && cs[0].Throw? {
        assert cs[0].Throw? && Sequence(cs).exc == cs[0].exc;
      }
    }
  }

  /** Mapping over a concatenation: the first failure wins, otherwise the
      values of both parts in order. */
  lemma {:induction false} SequenceAppend<R>(a: seq<Completion<R>>, b: seq<Completion<R>>)
    ensures Sequence(a + b) ==
      if Sequence(a).Throw? then Sequence(a)
      else if Sequence(b).Throw? then Sequence(b)
      else Normal(Sequence(a).value + Sequence(b).value)
    decreases |a|
  {
    if a == [] {
      assert a + b == b;
      if Sequence(b).Normal? { assert [] + Sequence(b).value == Sequence(b).value; }
    } else {
      assert (a + b)[0] == a[0];
      assert (a + b)[1..] == a[1..] + b;
      SequenceAppend(a[1..], b);
      var ra := Sequence(a[1..]);
      var rb := Sequence(b);
      if a[0].Normal? && ra.Normal? && rb.Normal? {
        assert [a[0].value] + (ra.value + rb.value) == ([a[0].value] + ra.value) + rb.value;
      }
    }
  }

  /** `parseLine` applied to each line. */
  function ParseEach(lines: seq<string>, parse: JsonParser): (r: seq<Completion<Record>>)
    ensures |r| == |lines|
    ensures forall i :: 0 <= i < |lines| ==> r[i] == ParseLine(lines[i], parse)
  {
    seq(|lines|, i requires 0 <= i < |lines| => ParseLine(lines[i], parse))
  }

  /** `lines.map(parseLine)`. */
  function ParseAll(lines: seq<string>, parse: JsonParser): (r: Completion<seq<Record>>)
  {
    Sequence(ParseEach(lines, parse))
  }

  /** Decoding a concatenation of lines: the first failure wins, otherwise the
      records of both parts in order. */
  lemma {:induction false} ParseAllAppend(a: seq<string>, b: seq<string>, parse: JsonParser)
    ensures ParseAll(a + b, parse) ==
      if ParseAll(a, parse).Throw? then ParseAll(a, parse)
      else if ParseAll(b, parse).Throw? then ParseAll(b, parse)
      else Normal(ParseAll(a, parse).value + ParseAll(b, parse).value)
  {
    assert ParseEach(a + b, parse) == ParseEach(a, parse) + ParseEach(b, parse);
    SequenceAppend(ParseEach(a, parse), ParseEach(b, parse));
  }

  /** A blank line (as between two consecutive newlines) is not JSON, so it
      aborts the whole batch: there is no per-record recovery. */
  lemma BlankLineAborts(parse: JsonParser, before: seq<string>, after: seq<string>)
    requires parse("").Err?
    ensures ParseAll(before + [""] + after, parse).Throw?
    ensures CompleteLines("\n\n") == ["", ""]
  {
    var ls := before + [""] + after;
    assert ls[|before|] == "";
    assert ParseEach(ls, parse)[|before|].Throw?;
    SequenceSpec(ParseEach(ls, parse));
    var s := "\n\n";
    assert s[1..] == "\n";
    assert "\n"[1..] == "";
    assert Split("\n", '\n') == ["", ""];
    assert Split(s, '\n') == ["", "", ""];
  }

  // ---------------------------------------------------------------------------
  // The framer

  /** What the reader received, in order: a stdout chunk or a stderr fragment. */
  datatype Event = Stdout(chunk: string) | Stderr(data: string)

  /** All stdout received, concatenated. */
  function StdoutOf(events: seq<Event>): string
    decreases |events|
  {
    if events == [] then ""
    else StdoutOf(events[..|events| - 1]) + (if Last(events).Stdout? then Last(events).chunk else "")
  }

  /** The stderr fragments, in order. */
  function StderrOf(events: seq<Event>): seq<string>
    decreases |events|
  {
    if events == [] then []
    else StderrOf(events[..|events| - 1]) + (if Last(events).Stderr? then [Last(events).data] else [])
  }

  /** How many stdout chunks were received. */
  function ChunkCount(events: seq<Event>): nat
    decreases |events|
  {
    if events == [] then 0
    else ChunkCount(events[..|events| - 1]) + (if Last(events).Stdout? then 1 else 0)
  }

  /** The records of all batches, in order. */
  function Flatten(batches: seq<seq<Record>>): seq<Record>
    decreases |batches|
  {
    if batches == [] then [] else Flatten(batches[..|batches| - 1]) + Last(batches)
  }

  /** The error string recorded for a leftover fragment that does not decode. */
  function LeftoverErrors(leftover: string, parse: JsonParser): (r: seq<string>)
    ensures |r| <= 1
    ensures |r| == 1 <==> leftover != "" && ParseLine(leftover, parse).Throw?
  {
    if leftover != "" && ParseLine(leftover, parse).Throw?
    then ["Unparsable left over buffer: '" + leftover + "'"]
    else []
  }

  /** The generator's return value: `Err(errors)` when anything was collected,
      `Ok()` otherwise. */
  function Terminal(errors: seq<string>): (r: Result<(), seq<string>>)
    ensures r.IsOk() <==> errors == []
    ensures !r.IsOk() ==> r.err == errors
  {
    if |errors| > 0 then Err(errors) else Ok(())
  }

  /** One run of `journalctl`: the argument vector, the carried-over partial
      line and the collected error strings.  `stdout` and `lines` record what
      was received and what was split off, for the specification. */
  class JournalCtl {
    const args: seq<string>
    const parse: JsonParser
    var buffer: string
    var errors: seq<string>
    var finished: bool
    ghost var stdout: string
    ghost var lines: seq<string>

    ghost predicate Valid()
      reads this
    {
      lines == CompleteLines(stdout) && buffer == Rest(stdout)
    }

    constructor (options: Options, parse: JsonParser)
      ensures Valid() && !finished
      ensures args == ArgVector(options) && this.parse == parse
      ensures buffer == "" && errors == [] && stdout == "" && lines == []
    {
      var opts := ["-u", options.unit];
      if options.follow { opts := opts + ["-f"]; }
      if LimitGiven(options) { opts := opts + ["-n", IntToString(options.limit.value)]; }
      if !options.pager { opts := opts + ["--no-pager"]; }
      if CursorGiven(options) { opts := opts + [AfterCursor + options.cursor.value]; }
      opts := opts + ["--output=json"];
      args := opts;
      this.parse := parse;
      buffer, errors, finished := "", [], false;
      stdout, lines := "", [];
    }

    /** The stderr listener: every fragment is appended to `errors`. */
    method OnStderr(data: string)
      modifies this`errors
      ensures errors == old(errors) + [data]
    {
      errors := errors + [data];
    }

    /** One stdout chunk: split `buffer + chunk` at newlines, keep the last
      piece as the new buffer and decode the others as this chunk's batch.  A
      line that does not decode ends the generator with that exception. */
    method Feed(chunk: string) returns (batch: Completion<seq<Record>>)
      requires Valid() && !finished
      modifies this`buffer, this`stdout, this`lines, this`finished
      ensures Valid()
      ensures stdout == old(stdout) + chunk
      ensures lines == old(lines) + CompleteLines(old(buffer) + chunk)
      ensures |lines| == |old(lines)| + Count(old(buffer) + chunk, '\n')
      ensures '\n' !in buffer && forall i :: 0 <= i < |lines| ==> '\n' !in lines[i]
      ensures Terminated(lines) + buffer == stdout
      ensures batch == ParseAll(CompleteLines(old(buffer) + chunk), parse)
      ensures finished <==> batch.Throw?
    {
      var pieces := Split(buffer + chunk, '\n');
      var complete := pieces[..|pieces| - 1];
      SplitAppend(stdout, chunk);
      SplitCount(buffer + chunk, '\n');
      buffer := pieces[|pieces| - 1];
      stdout := stdout + chunk;
      lines := lines + complete;
      SplitPiecesFree(stdout, '\n');
      FramingConserves(stdout);
      batch := ParseAll(complete, parse);
      finished := batch.Throw?;
    }

    /** End of stdout: a non-empty leftover is decoded as one final record;
      if it does not decode, an error string is recorded instead and nothing
      is thrown.  Returns the final record, if any, and the terminal result. */
    method Finish() returns (leftover: Option<Record>, result: Result<(), seq<string>>)
      requires Valid() && !finished
      modifies this`errors, this`finished
      ensures finished
      ensures old(buffer) == "" ==> leftover == None
      ensures old(buffer) != "" && ParseLine(old(buffer), parse).Normal? ==>
        leftover == Some(ParseLine(old(buffer), parse).value)
      ensures ParseLine(old(buffer), parse).Throw? ==> leftover == None
      ensures errors == old(errors) + LeftoverErrors(old(buffer), parse)
      ensures result == Terminal(errors)
    {
      leftover := None;
      if buffer != "" {
        match ParseLine(buffer, parse)
        case Normal(record) =>
          leftover := Some(record);
        case Throw(_) =>
          errors := errors + ["Unparsable left over buffer: '" + buffer + "'"];
      }
      finished := true;
      if |errors| > 0 {
        result := Err(errors);
      } else {
        result := Ok(());
      }
    }
  }

  /** The whole generator over one run of the reader: feed every stdout chunk
      and stderr fragment in the order they arrived, then finish.  Returns the
      batches yielded and how the generator ended. */
  method Run(options: Options, parse: JsonParser, events: seq<Event>)
    returns (batches: seq<seq<Record>>, outcome: Completion<Result<(), seq<string>>>)
    ensures outcome.Throw? <==> ParseAll(CompleteLines(StdoutOf(events)), parse).Throw?
    ensures outcome.Normal? ==>
      && var n := ChunkCount(events);
      && var rest := Rest(StdoutOf(events));
      && n <= |batches|
      && Flatten(batches[..n]) == ParseAll(CompleteLines(StdoutOf(events)), parse).value
      && |Flatten(batches[..n])| == Count(StdoutOf(events), '\n')
      && batches[n..] == (if rest != "" && ParseLine(rest, parse).Normal? then [[ParseLine(rest, parse).value]] else [])
      && outcome.value == Terminal(StderrOf(events) + LeftoverErrors(rest, parse))
  {
    var reader := new JournalCtl(options, parse);
    batches := [];
    var i := 0;
    while i < |events|
      invariant 0 <= i <= |events|
      decreases |events| - i
      invariant reader.Valid() && !reader.finished && reader.parse == parse
      invariant reader.stdout == StdoutOf(events[..i])
      invariant reader.errors == StderrOf(events[..i])
      invariant |batches| == ChunkCount(events[..i])
      invariant ParseAll(reader.lines, parse).Normal?
      invariant Flatten(batches) == ParseAll(reader.lines, parse).value
    {
      EventsStep(events, i);
      var before := reader.lines;
      var carried := reader.buffer;
      match events[i] {
      case Stderr(data) =>
        reader.OnStderr(data);
      case Stdout(chunk) =>
        var batch := reader.Feed(chunk);
        ParseAllAppend(before, CompleteLines(carried + chunk), parse);
        if batch.Throw? {
          // the failing line is a complete line of everything the reader will receive
          StdoutSplit(events, i + 1);
          FailureIsFinal(reader.stdout, StdoutOf(events[i + 1..]), parse);
          outcome := Throw(batch.exc);
          return;
        }
        FlattenPush(batches, batch.value);
        batches := batches + [batch.value];
      }
      i := i + 1;
    }
    assert events[..i] == events;
    SplitCount(StdoutOf(events), '\n');
    assert batches[..ChunkCount(events)] == batches;
    var leftover, result := reader.Finish();
    if leftover.Some? {
      batches := batches + [[leftover.value]];
      assert batches[..|batches| - 1] == batches[..ChunkCount(events)];
    }
    outcome := Normal(result);
  }

  /** One more event extends exactly one of the stdout text, the stderr list
      and the chunk count. */
  lemma EventsStep(events: seq<Event>, i: nat)
    requires i < |events|
    ensures StdoutOf(events[..i + 1]) == StdoutOf(events[..i]) + (if events[i].Stdout? then events[i].chunk else "")
    ensures StderrOf(events[..i + 1]) == StderrOf(events[..i]) + (if events[i].Stderr? then [events[i].data] else [])
    ensures ChunkCount(events[..i + 1]) == ChunkCount(events[..i]) + (if events[i].Stdout? then 1 else 0)
  {
    assert events[..i + 1][..i] == events[..i];
    assert Last(events[..i + 1]) == events[i];
  }

  lemma FlattenPush(batches: seq<seq<Record>>, b: seq<Record>)
    ensures Flatten(batches + [b]) == Flatten(batches) + b
  {
    assert (batches + [b])[..|batches|] == batches;
  }

  /** Once a complete line fails to decode, the stream as a whole fails,
      whatever arrives after it. */
  lemma FailureIsFinal(s: string, t: string, parse: JsonParser)
    requires ParseAll(CompleteLines(s), parse).Throw?
    ensures ParseAll(CompleteLines(s + t), parse).Throw?
  {
    SplitAppend(s, t);
    ParseAllAppend(CompleteLines(s), CompleteLines(Rest(s) + t), parse);
  }

  /** The stdout of a sequence of events is that of a prefix followed by that
      of the remaining events. */
  lemma {:induction false} StdoutSplit(events: seq<Event>, k: nat)
    requires k <= |events|
    ensures StdoutOf(events) == StdoutOf(events[..k]) + StdoutOf(events[k..])
    decreases |events|
  {
    if k < |events| {
      var init := events[..|events| - 1];
      StdoutSplit(init, k);
      assert init[..k] == events[..k];
      assert init[k..] == events[k..][..|events[k..]| - 1];
      assert Last(events[k..]) == Last(events);
    } else {
      assert events[..k] == events;
      assert events[k..] == [];
    }
  }
}
