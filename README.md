# logfmtwrite in Dafny

`logfmtwrite` is a command that writes one log line in logfmt. It takes
repeatable `--label key=value` flags and free-text message words. It builds the
interleaved key/value list `time, <timestamp>, <label keys and values>, msg,
<words joined by spaces>`. It passes that list to a logfmt encoder and prints
the result.

This project models the command's logic in `cmd/root.go`:

- `go_strings.dfy` (module `GoStrings`) holds the parts of Go's `strings`
  package that the command uses. `Split` splits on a one-character separator.
  It always gives one more segment than there are separators, and no segment
  contains a separator. `Join` joins segments. Two lemmas show that each one
  undoes the other.
- `root.dfy` (module `Cmd`) holds the command itself:
  - `LabelParts` is `labelParts`. It accepts a label only when it contains
    exactly one `=`. It keeps empty keys and empty values. On error it
    returns `("", "")` and the format message.
  - `RunE` is `rootCmd.RunE`, written as a method with the source's loop. It
    is proved equal to the loop-free specification `Run`.
  - The lemmas about `Run` and `Fields` cover the rest:
    - the shape and order of the field list;
    - a bad label stops the run, with no output;
    - a run succeeds exactly when every label parses and the encoder succeeds;
    - a run with no labels fails only when the encoder fails;
    - a label list `[""]` always fails.
- `wrappers.dfy` (module `Wrappers`) holds `Option` and `Result`. An error is
  modelled as its message text. Wrapping an error with `%w` becomes the prefix
  followed by the inner message, as Go's `Error()` text reads.

Some things in `RunE` come from outside the model, so they are parameters:

- `now`: the formatted timestamp, instead of a read of the clock.
- `labelFlag`: what the flag library returns for `--label`. This is either the
  label list or the library's error.
- `marshal`: the logfmt encoder, as a function that may fail.

Standard output is a string. It is empty when the run fails. When the run
succeeds it is the encoded line followed by `"\n"`.

The `--label` flag is registered with the default `[""]` (cmd/root.go:71).
`RunE` does not read that value directly. It asks the flag library with
`GetStringArray` (cmd/root.go:40), which rebuilds the list from its text form
and gives back an empty list for `[""]`. So a run without `--label` reaches
the loop with no labels. `NoLabelsRun` covers that case. `OneEmptyLabelFails`
shows what the loop does with a list `[""]` if one ever reaches it.

## Model

| member | source | states |
|---|---|---|
| GoStrings.Split | cmd/root.go:26 | `strings.Split` on one character returns exactly one more segment than there are separators in the input, and no segment contains the separator |
| GoStrings.SplitJoin | cmd/root.go:26 | joining the segments from `Split` with the separator gives back the original string |
| GoStrings.JoinSplit | cmd/root.go:26 | splitting the join of a non-empty list of separator-free segments gives back exactly those segments, so `Split` and `Join` are inverses |
| GoStrings.Join | cmd/root.go:52 | `strings.Join` output has the total length of the elements plus one separator between each pair of neighbours, and starts with the first element |
| Cmd.GetLabelsError | cmd/root.go:42 | the wrapped flag-retrieval error ends with the whole message of its cause |
| Cmd.ParseLabelError | cmd/root.go:48 | the wrapped label error ends with the whole message of its cause |
| Cmd.EncodeError | cmd/root.go:56 | the wrapped encoder error ends with the whole message of its cause |
| Cmd.WrapsDistinct | cmd/root.go:42-56 | each of the three wraps is injective, and no two of them can produce the same message, so an error shows which stage failed |
| Cmd.LabelParts | cmd/root.go:25-31 | succeeds if and only if the label has exactly one `=`; on success the key and value contain no `=` and key + "=" + value is the label; on failure the result is `("", "")` with "label must be in the format <key>=<value>" |
| Cmd.LabelPartsOfPair | cmd/root.go:25-31 | for any key and value without `=`, parsing `key=value` returns that key and value with no error (the round trip in the other direction) |
| Cmd.LabelPartsEdgeCases | cmd/root.go:26-30 | `"=b"`, `"a="` and `"="` parse with an empty side; `"a"`, `""` and `"a=b=c"` are rejected with the format error, so the label is not split at its first `=` only |
| Cmd.LabelPairs | cmd/root.go:45-51 | the loop appends exactly two strings per label |
| Cmd.LabelPairsAt | cmd/root.go:45-51 | the key and value of label `i` are at positions `2i` and `2i+1` of the appended strings, so they keep the flag order |
| Cmd.FirstInvalid | cmd/root.go:45-49 | gives the index where the loop stops: every earlier label parses, and the label at that index does not, unless the index is past the end |
| Cmd.Fields | cmd/root.go:37-52 | the finished `messageParts` has length 2 × (number of labels + 2), starts with the pair (`time`, timestamp) and ends with the pair (`msg`, args joined by single spaces) |
| Cmd.FieldsCharacterized | cmd/root.go:37-52 | when every label parses, a list is a valid field list if and only if it equals the assembled `messageParts`. A valid field list has length 2 × (number of labels + 2), starts with (`time`, timestamp), then has one `=`-free pair per label that spells that label, in order, and ends with (`msg`, args joined by single spaces) |
| Cmd.Run | cmd/root.go:36-59 | a run reports an error exactly when it prints nothing |
| Cmd.RunE | cmd/root.go:36-60 | the loop's output and error are those of `Run`; if the flag library fails, `messageParts` is only the time pair; if a label is bad, `messageParts` holds the pairs of the labels before the first bad one; otherwise it is the complete field list |
| Cmd.LabelFailureIff | cmd/root.go:45-49 | some label lacks exactly one `=` if and only if the run fails with "failed to parse label: " followed by the format message and prints nothing, whatever the encoder would do |
| Cmd.RunSuccessIff | cmd/root.go:52-59 | a run succeeds if and only if every label parses and the encoder accepts the field list; it then prints the encoding of that list plus a newline, and the list has the field-list shape |
| Cmd.OneEmptyLabelFails | cmd/root.go:26-28 | a label list `[""]` that reaches the loop at lines 45-49 makes every run fail with the wrapped label-format error and print nothing, because the empty label has no `=` |
| Cmd.NoLabelsRun | cmd/root.go:40-52 | with no labels (what `GetStringArray` returns when `--label` is not given), the field list is only the time and message pairs, and a run fails only when the encoder fails |
| Cmd.NoArgsEmptyMessage | cmd/root.go:52 | with no positional arguments, the last pair is (`msg`, empty string) |
| Cmd.TwoLabelFields | cmd/root.go:45-52 | two labels `k1=v1`, `k2=v2` give exactly `time, now, k1, v1, k2, v2, msg, <args>` |
| Cmd.ExampleFieldList | cmd/root.go:37-52 | labels `level=info`, `app=demo` and words `server started` give `time, <ts>, level, info, app, demo, msg, "server started"` |

## Left out

- `dateParts` reads the wall clock and formats it as RFC 3339. The timestamp is a parameter, and its format is not checked.
- `logfmt.MarshalKeyvals` is an external library, so its quoting and escaping rules are not modelled. It is the parameter `marshal`. The model keeps only one effect: when it fails, the run returns the wrapped error and prints nothing.
- The cobra command, flag registration and `GetStringArray` are left out. Their only modelled effect is the `labelFlag` input, which can carry a retrieval error.
- `fmt.Println` is modelled as the `stdout` string. `Execute` and its `os.Exit(1)` are process plumbing and are left out.
- GoStrings.Split: models `strings.Split` only for a one-character separator, which is the only kind the command uses.
- `GetStringArray` rebuilds the label list by writing it as CSV and parsing it back. This turns the default `[""]` into `[]`, and an explicit `--label ''` the same way. The model does not capture that round trip: `labelFlag` is the list after it.
- Go strings are byte strings, but a Dafny `string` is a sequence of Unicode characters. So a label that is not valid UTF-8 cannot be represented. On every other input, splitting on the ASCII `=` gives the same result.
- `messageParts` is a `[]interface{}` in Go. Here it is a sequence of strings, because only strings are ever stored in it.
