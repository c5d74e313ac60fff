/** The `logfmtwrite` command (cmd/root.go): parse the `--label key=value`
    flags, assemble the interleaved key/value list `time, <timestamp>, labels...,
    msg, <words>`, hand it to the logfmt encoder and print the encoded line.

    The wall clock, the flag library and the logfmt encoder are parameters:
    `now` is the already formatted timestamp, `labelFlag` is what the flag
    library hands back for `--label` (the label list, or its error), and
    `marshal` is the encoder, which may fail. */
module Cmd {
  import opened Wrappers
  import opened GoStrings

  const TimeKey: string := "time"
  const MessageKey: string := "msg"

  /** Message of the error `labelParts` returns. */
  const LabelFormatMessage: string := "label must be in the format <key>=<value>"

  /** A label list holding one empty label, as the `--label` default is written.
      (The flag library hands that default to `RunE` as an empty list.) */
  const OneEmptyLabel: seq<string> := [""]

  /** The three ways `RunE` wraps an error with `%w`: a context prefix, then
      the message of the cause, which is kept whole at the end. */
  function GetLabelsError(cause: string): (r: string)
    ensures |r| > |cause| && r[|r| - |cause|..] == cause
  {
    "failed to get label array: " + cause
  }

  function ParseLabelError(cause: string): (r: string)
    ensures |r| > |cause| && r[|r| - |cause|..] == cause
  {
    "failed to parse label: " + cause
  }

  function EncodeError(cause: string): (r: string)
    ensures |r| > |cause| && r[|r| - |cause|..] == cause
  {
    "failed to encode the message: " + cause
  }

  /** Each wrap can be undone, and no two stages' wraps produce the same
      message, so an error tells which stage failed and why. */
  lemma WrapsDistinct(c1: string, c2: string)
    ensures ParseLabelError(c1) == ParseLabelError(c2) ==> c1 == c2
    ensures GetLabelsError(c1) == GetLabelsError(c2) ==> c1 == c2
    ensures EncodeError(c1) == EncodeError(c2) ==> c1 == c2
    ensures GetLabelsError(c1) != ParseLabelError(c2)
    ensures GetLabelsError(c1) != EncodeError(c2)
    ensures ParseLabelError(c1) != EncodeError(c2)
  {
    // The prefixes "failed to get ...", "failed to parse ..." and
    // "failed to encode ..." first differ at index 10.
    assert GetLabelsError(c1)[10] == 'g';
    assert ParseLabelError(c1)[10] == 'p';
    assert EncodeError(c2)[10] == 'e';
    assert ParseLabelError(c2)[10] == 'p';
    if ParseLabelError(c1) == ParseLabelError(c2) {
      assert c1 == ParseLabelError(c1)[23..];
    }
    if GetLabelsError(c1) == GetLabelsError(c2) {
      assert c1 == GetLabelsError(c1)[27..];
    }
    if EncodeError(c1) == EncodeError(c2) {
      assert c1 == EncodeError(c1)[30..];
    }
  }

  /** Go's triple `(key, value, err)` returned by `labelParts`. */
  datatype LabelOutcome = LabelOutcome(key: string, value: string, err: Option<string>)

  /** A label is well formed when it holds exactly one `=`. */
  predicate ValidLabel(raw: string)
  {
    Count(raw, '=') == 1
  }

  /** `labelParts`: split on `=` and accept exactly two parts. */
  function LabelParts(raw: string): (r: LabelOutcome)
    ensures r.err.None? <==> ValidLabel(raw)
    ensures r.err.Some? ==> r == LabelOutcome("", "", Some(LabelFormatMessage))
    ensures r.err.None? ==> '=' !in r.key && '=' !in r.value && r.key + "=" + r.value == raw
  {
    var parts := Split(raw, '=');
    if |parts| != 2 then LabelOutcome("", "", Some(LabelFormatMessage))
    else
      SplitJoin(raw, '=');
      assert Join(parts, "=") == parts[0] + "=" + parts[1];
      LabelOutcome(parts[0], parts[1], None)
  }

  /** Any `=`-free key and value, written as `key=value`, parse back to themselves. */
  lemma LabelPartsOfPair(key: string, value: string)
    requires '=' !in key && '=' !in value
    ensures LabelParts(key + "=" + value) == LabelOutcome(key, value, None)
  {
    var elems := [key, value];
    assert Join(elems, "=") == key + "=" + value;
    JoinSplit(elems, '=');
  }

  /** The parser's edge cases: empty sides are accepted, and a second `=`
      is an error rather than part of the value. */
  lemma LabelPartsEdgeCases()
    ensures LabelParts("=b") == LabelOutcome("", "b", None)
    ensures LabelParts("a=") == LabelOutcome("a", "", None)
    ensures LabelParts("=") == LabelOutcome("", "", None)
    ensures LabelParts("a") == LabelOutcome("", "", Some(LabelFormatMessage))
    ensures LabelParts("") == LabelOutcome("", "", Some(LabelFormatMessage))
    ensures LabelParts("a=b=c") == LabelOutcome("", "", Some(LabelFormatMessage))
  {
    LabelPartsOfPair("", "b");
    assert "" + "=" + "b" == "=b";
    LabelPartsOfPair("a", "");
    assert "a" + "=" + "" == "a=";
    LabelPartsOfPair("", "");
    assert "" + "=" + "" == "=";
    assert Count("a=b=c", '=') == 2;
  }

  /** The key/value strings the loop appends for `labels`, in order. */
  function LabelPairs(labels: seq<string>): (pairs: seq<string>)
    ensures |pairs| == 2 * |labels|
  {
    if labels == [] then []
    else
      var last := LabelParts(labels[|labels| - 1]);
      LabelPairs(labels[..|labels| - 1]) + [last.key, last.value]
  }

  /** The pair of label `i` sits at positions `2 * i` and `2 * i + 1`. */
  lemma {:induction false} LabelPairsAt(labels: seq<string>, i: nat)
    requires i < |labels|
    ensures LabelPairs(labels)[2 * i] == LabelParts(labels[i]).key
    ensures LabelPairs(labels)[2 * i + 1] == LabelParts(labels[i]).value
  {
    var init := labels[..|labels| - 1];
    if i < |labels| - 1 {
      LabelPairsAt(init, i);
    }
  }

  /** Index of the first label that does not parse, or `|labels|` if all do. */
  function FirstInvalid(labels: seq<string>): (n: nat)
    ensures n <= |labels|
    ensures forall j :: 0 <= j < n ==> ValidLabel(labels[j])
    ensures n < |labels| ==> !ValidLabel(labels[n])
  {
    if labels == [] || !ValidLabel(labels[0]) then 0
    else 1 + FirstInvalid(labels[1..])
  }

  /** The finished `messageParts` of a run whose labels all parse. */
  function Fields(now: string, labels: seq<string>, args: seq<string>): (parts: seq<string>)
    ensures |parts| == 2 * (|labels| + 2)
    ensures parts[..2] == [TimeKey, now]
    ensures parts[|parts| - 2..] == [MessageKey, Join(args, " ")]
  {
    [TimeKey, now] + LabelPairs(labels) + [MessageKey, Join(args, " ")]
  }

  /** What a field list for `now`, `labels` and `args` must look like: the time
      pair first, then one `=`-free pair per label that spells the label, in
      flag order, and the message pair last. */
  ghost predicate IsFieldList(parts: seq<string>, now: string, labels: seq<string>, args: seq<string>)
  {
    && |parts| == 2 * (|labels| + 2)
    && parts[0] == TimeKey && parts[1] == now
    && (forall i :: 0 <= i < |labels| ==>
          var key, value := parts[2 * i + 2], parts[2 * i + 3];
          '=' !in key && '=' !in value && key + "=" + value == labels[i])
    && parts[|parts| - 2] == MessageKey && parts[|parts| - 1] == Join(args, " ")
  }

  /** When every label parses, `Fields` is the one and only field list. */
  lemma FieldsCharacterized(parts: seq<string>, now: string, labels: seq<string>, args: seq<string>)
    requires forall i :: 0 <= i < |labels| ==> ValidLabel(labels[i])
    ensures IsFieldList(parts, now, labels, args) <==> parts == Fields(now, labels, args)
  {
    var fields := Fields(now, labels, args);
    forall i | 0 <= i < |labels|
      ensures fields[2 * i + 2] == LabelParts(labels[i]).key
      ensures fields[2 * i + 3] == LabelParts(labels[i]).value
    {
      LabelPairsAt(labels, i);
    }
    assert IsFieldList(fields, now, labels, args);
    if IsFieldList(parts, now, labels, args) {
      forall k | 0 <= k < |parts|
        ensures parts[k] == fields[k]
      {
        if 2 <= k < |parts| - 2 {
          var i := (k - 2) / 2;
          assert k == 2 * i + 2 || k == 2 * i + 3;
          assert parts[2 * i + 2] + "=" + parts[2 * i + 3] == labels[i];
          LabelPartsOfPair(parts[2 * i + 2], parts[2 * i + 3]);
        }
      }
    }
  }

  /** What one run writes to standard output and the error it returns. */
  datatype RunOutcome = RunOutcome(stdout: string, err: Option<string>)

  /** The behaviour of `RunE`, stated without its loop: a flag error, then the
      first bad label, then an encoder error abort with no output; otherwise
      the encoded line is printed. */
  function Run(now: string, labelFlag: Result<seq<string>>, args: seq<string>,
               marshal: seq<string> -> Result<string>): (r: RunOutcome)
    ensures r.err.Some? <==> r.stdout == ""
  {
    match labelFlag
    case Failure(e) => RunOutcome("", Some(GetLabelsError(e)))
    case Success(labels) =>
      if FirstInvalid(labels) < |labels| then
        RunOutcome("", Some(ParseLabelError(LabelFormatMessage)))
      else
        match marshal(Fields(now, labels, args))
        case Failure(e) => RunOutcome("", Some(EncodeError(e)))
        case Success(data) => RunOutcome(data + "\n", None)
  }

  /** `rootCmd.RunE`. `messageParts` is the local slice as it stands when the
      method returns: it stops growing at the first bad label. */
  method RunE(now: string, labelFlag: Result<seq<string>>, args: seq<string>,
              marshal: seq<string> -> Result<string>)
    returns (stdout: string, err: Option<string>, ghost messageParts: seq<string>)
    ensures RunOutcome(stdout, err) == Run(now, labelFlag, args, marshal)
    ensures labelFlag.Failure? ==> messageParts == [TimeKey, now]
    ensures labelFlag.Success? ==>
      var labels := labelFlag.value;
      var n := FirstInvalid(labels);
      if n < |labels| then messageParts == [TimeKey, now] + LabelPairs(labels[..n])
      else messageParts == Fields(now, labels, args)
  {
    var parts := [TimeKey, now];
    if labelFlag.Failure? {
      return "", Some(GetLabelsError(labelFlag.error)), parts;
    }
    var labels := labelFlag.value;
    for i := 0 to |labels|
      invariant forall j :: 0 <= j < i ==> ValidLabel(labels[j])
      invariant parts == [TimeKey, now] + LabelPairs(labels[..i])
    {
      var parsed := LabelParts(labels[i]);
      if parsed.err.Some? {
        return "", Some(ParseLabelError(parsed.err.value)), parts;
      }
      assert labels[..i + 1][..i] == labels[..i];
      parts := parts + [parsed.key, parsed.value];
    }
    assert labels[..|labels|] == labels;
    parts := parts + [MessageKey, Join(args, " ")];
    var data := marshal(parts);
    if data.Failure? {
      return "", Some(EncodeError(data.error)), parts;
    }
    return data.value + "\n", None, parts;
  }

  /** A run with a bad label fails with the wrapped format error and prints
      nothing, whatever the encoder would do; and that error means a bad label. */
  lemma LabelFailureIff(now: string, labels: seq<string>, args: seq<string>,
                        marshal: seq<string> -> Result<string>)
    ensures (exists i :: 0 <= i < |labels| && !ValidLabel(labels[i])) <==>
            Run(now, Success(labels), args, marshal) == RunOutcome("", Some(ParseLabelError(LabelFormatMessage)))
  {
    var r := Run(now, Success(labels), args, marshal);
    var n := FirstInvalid(labels);
    if n == |labels| {
      var fields := Fields(now, labels, args);
      match marshal(fields)
      case Failure(e) =>
        // The label error and an encoder error carry different prefixes.
        WrapsDistinct(LabelFormatMessage, e);
      case Success(data) =>
    } else {
      assert !ValidLabel(labels[n]);
    }
  }

  /** A run succeeds exactly when every label parses and the encoder accepts
      the field list; it then prints the encoding of the one field list that
      has the required shape, followed by a newline. */
  lemma RunSuccessIff(now: string, labels: seq<string>, args: seq<string>,
                      marshal: seq<string> -> Result<string>)
    ensures Run(now, Success(labels), args, marshal).err.None? <==>
            (forall i :: 0 <= i < |labels| ==> ValidLabel(labels[i])) && marshal(Fields(now, labels, args)).Success?
    ensures Run(now, Success(labels), args, marshal).err.None? ==>
            IsFieldList(Fields(now, labels, args), now, labels, args) &&
            Run(now, Success(labels), args, marshal).stdout == marshal(Fields(now, labels, args)).value + "\n"
  {
    var n := FirstInvalid(labels);
    if n == |labels| {
      FieldsCharacterized(Fields(now, labels, args), now, labels, args);
    } else {
      assert !ValidLabel(labels[n]);
    }
  }

  /** A label list `[""]` that reaches the loop makes every run fail:
      the empty label has no `=`. */
  lemma OneEmptyLabelFails(now: string, args: seq<string>, marshal: seq<string> -> Result<string>)
    ensures Run(now, Success(OneEmptyLabel), args, marshal) ==
            RunOutcome("", Some(ParseLabelError(LabelFormatMessage)))
  {
    assert !ValidLabel(OneEmptyLabel[0]);
  }

  /** The label list of a run without `--label`. */
  const NoLabels: seq<string> := []

  /** A run without labels fails only if the encoder does, and its field
      list is just the time and message pairs. */
  lemma NoLabelsRun(now: string, args: seq<string>, marshal: seq<string> -> Result<string>)
    ensures Fields(now, NoLabels, args) == [TimeKey, now, MessageKey, Join(args, " ")]
    ensures Run(now, Success(NoLabels), args, marshal).err.None? <==>
            marshal([TimeKey, now, MessageKey, Join(args, " ")]).Success?
  {
    RunSuccessIff(now, NoLabels, args, marshal);
  }

  /** With no positional arguments the message value is empty. */
  lemma NoArgsEmptyMessage(now: string, labels: seq<string>)
    ensures Fields(now, labels, [])[2 * |labels| + 2 .. ] == [MessageKey, ""]
  {
  }

  /** Two well-formed labels land, in order, between the time and message pairs. */
  lemma TwoLabelFields(now: string, k1: string, v1: string, k2: string, v2: string, args: seq<string>)
    requires '=' !in k1 && '=' !in v1 && '=' !in k2 && '=' !in v2
    ensures Fields(now, [k1 + "=" + v1, k2 + "=" + v2], args) ==
            [TimeKey, now, k1, v1, k2, v2, MessageKey, Join(args, " ")]
  {
    var labels := [k1 + "=" + v1, k2 + "=" + v2];
    LabelPartsOfPair(k1, v1);
    LabelPartsOfPair(k2, v2);
    assert labels[..1] == [labels[0]] && labels[..1][..0] == [];
    assert LabelPairs(labels[..1]) == [k1, v1];
    assert LabelPairs(labels) == [k1, v1, k2, v2];
  }

  /** The field list of `--label level=info --label app=demo server started`. */
  lemma ExampleFieldList()
    ensures Fields("2024-01-15T10:30:00Z", ["level=info", "app=demo"], ["server", "started"]) ==
            ["time", "2024-01-15T10:30:00Z", "level", "info", "app", "demo", "msg", "server started"]
  {
    TwoLabelFields("2024-01-15T10:30:00Z", "level", "info", "app", "demo", ["server", "started"]);
    assert "level" + "=" + "info" == "level=info";
    assert "app" + "=" + "demo" == "app=demo";
    assert Join(["server", "started"], " ") == "server started";
  }
}
