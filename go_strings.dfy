/** The two functions of Go's `strings` package that the command uses:
    `strings.Split` (with a one-character separator, as in `strings.Split(label, "=")`)
    and `strings.Join`. */
module GoStrings {

  /** Number of occurrences of `c` in `s` (`strings.Count` for a one-character separator). */
  function Count(s: string, c: char): nat
  {
    if s == [] then 0
    else (if s[0] == c then 1 else 0) + Count(s[1..], c)
  }

  /** `strings.Split(s, [sep])`: the maximal `sep`-free segments of `s`, in order.
      There is always one more segment than there are separators, so the empty
      string splits into one (empty) segment. */
  function Split(s: string, sep: char): (parts: seq<string>)
    ensures |parts| == Count(s, sep) + 1
    ensures forall i :: 0 <= i < |parts| ==> sep !in parts[i]
  {
    if s == [] then [""]
    else
      var rest := Split(s[1..], sep);
      if s[0] == sep then [""] + rest
      else [[s[0]] + rest[0]] + rest[1..]
  }

  /** `strings.Join(elems, sep)`: the elements with `sep` between neighbours;
      no elements give the empty string. */
  function Join(elems: seq<string>, sep: string): (s: string)
    ensures |s| == TotalLength(elems) + (if elems == [] then 0 else (|elems| - 1) * |sep|)
    ensures elems != [] ==> elems[0] <= s
  {
    if elems == [] then ""
    else if |elems| == 1 then elems[0]
    else elems[0] + sep + Join(elems[1..], sep)
  }

  /** Sum of the lengths of `elems`. */
  function TotalLength(elems: seq<string>): nat
  {
    if elems == [] then 0 else |elems[0]| + TotalLength(elems[1..])
  }

  /** Splitting a string that starts with a separator-free prefix `p`
      glues `p` onto the first segment of the rest. */
  lemma {:induction false} SplitPrepend(p: string, t: string, sep: char)
    requires sep !in p
    ensures Split(p + t, sep) == [p + Split(t, sep)[0]] + Split(t, sep)[1..]
  {
    if p == [] {
      var st := Split(t, sep);
      assert p + t == t && p + st[0] == st[0];
      assert [st[0]] + st[1..] == st;
    } else {
      var s := p + t;
      assert s[0] == p[0] && s[1..] == p[1..] + t;
      SplitPrepend(p[1..], t, sep);
      assert [p[0]] + (p[1..] + Split(t, sep)[0]) == p + Split(t, sep)[0];
    }
  }

  /** Joining the segments back with the separator restores the string. */
  lemma {:induction false} SplitJoin(s: string, sep: char)
    ensures Join(Split(s, sep), [sep]) == s
  {
    if s != [] {
      var rest := Split(s[1..], sep);
      SplitJoin(s[1..], sep);
      if s[0] == sep {
        assert Split(s, sep) == [""] + rest;
        assert Join([""] + rest, [sep]) == "" + [sep] + Join(rest, [sep]);
        assert s == [sep] + s[1..];
      } else {
        var parts := Split(s, sep);
        assert parts == [[s[0]] + rest[0]] + rest[1..];
        if |rest| == 1 {
          assert Join(parts, [sep]) == [s[0]] + rest[0];
          assert Join(rest, [sep]) == rest[0];
        } else {
          assert parts[1..] == rest[1..];
          assert Join(parts, [sep]) == ([s[0]] + rest[0]) + [sep] + Join(rest[1..], [sep]);
          assert Join(rest, [sep]) == rest[0] + [sep] + Join(rest[1..], [sep]);
        }
        assert s == [s[0]] + s[1..];
      }
    }
  }

  /** Splitting the join of non-empty, separator-free segments gives the segments back. */
  lemma {:induction false} JoinSplit(elems: seq<string>, sep: char)
    requires elems != []
    requires forall i :: 0 <= i < |elems| ==> sep !in elems[i]
    ensures Split(Join(elems, [sep]), sep) == elems
  {
    if |elems| == 1 {
      SplitPrepend(elems[0], "", sep);
      assert elems[0] + "" == elems[0];
    } else {
      var tail := Join(elems[1..], [sep]);
      JoinSplit(elems[1..], sep);
      assert Join(elems, [sep]) == elems[0] + ([sep] + tail);
      SplitPrepend(elems[0], [sep] + tail, sep);
      var st := Split([sep] + tail, sep);
      assert ([sep] + tail)[1..] == tail;
      assert st == [""] + elems[1..];
      assert elems[0] + "" == elems[0];
      assert [elems[0]] + elems[1..] == elems;
    }
  }
}
