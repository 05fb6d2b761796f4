/** Reading the coincidence file of `hom_plot` (qlab/utils/hom_plot.py, lines
    31-44): a line without `_` sets the current delay step, a line `tag count`
    adds the count to the tag's row at the current step, and the table is a
    numpy integer array updated in place. */
module Coincidences {
  import opened PyText

  /** The exceptions the loop lets escape (a KeyError is caught and the line skipped). */
  datatype Crash = ValueError | UnboundLocalError | IndexError

  /** The state between two lines: the last step read (unbound before the
      first marker) and the coincidence table, row by row. */
  datatype Scan = Scan(step: Option<int>, table: seq<seq<int>>)

  /** Either still reading, or stopped by an exception with the table as it was then. */
  datatype Outcome = Running(scan: Scan) | Crashed(error: Crash, scan: Scan)

  /** The outcome for the state a loop leaves, `error` telling whether it stopped early. */
  function Finished(step: Option<int>, error: Option<Crash>, table: seq<seq<int>>): Outcome {
    if error.None? then Running(Scan(step, table)) else Crashed(error.value, Scan(step, table))
  }

  /** Every row of the table is `width` wide. */
  predicate Shaped(table: seq<seq<int>>, width: int) {
    forall i :: 0 <= i < |table| ==> |table[i]| == width
  }

  /** numpy's index into an axis of `size` entries: -size .. -1 count from the
      end; anything outside -size .. size-1 is an IndexError (None). */
  function NumpyIndex(k: int, size: nat): (r: Option<nat>)
    ensures r.Some? <==> -(size as int) <= k < size
    ensures r.Some? ==> r.value < size && r.value % size == k % size
  {
    if 0 <= k < size then Some(k)
    else if -(size as int) <= k < 0 then AddModulus(k, size); Some(k + size)
    else None
  }

  lemma AddModulus(k: int, size: nat)
    requires -(size as int) <= k < 0
    ensures (k + size) % size == k % size
  {
    var r := k + size;
    assert 0 <= r < size && r % size == r;
    assert k == -1 * size + r;
  }

  /** `table[r, c] += v`. */
  function AddCell(table: seq<seq<int>>, width: int, r: nat, c: nat, v: int): (t: seq<seq<int>>)
    requires Shaped(table, width) && r < |table| && c < width
    ensures |t| == |table| && Shaped(t, width)
    ensures forall i, j :: 0 <= i < |t| && 0 <= j < width ==>
              t[i][j] == table[i][j] + (if i == r && j == c then v else 0)
  {
    table[r := table[r][c := table[r][c] + v]]
  }

  /** A step marker: the stripped line is not empty and the line holds no `_`. */
  predicate IsMarker(line: string): (b: bool)
    ensures b <==> '_' !in line && exists i :: 0 <= i < |line| && !IsSpace(line[i])
  {
    StripEmpty(line);
    |Strip(line)| >= 1 && '_' !in line
  }

  /** `step = int(line.strip())`. */
  function SetStep(sc: Scan, k: Option<int>): Outcome {
    if k.None? then Crashed(ValueError, sc) else Running(Scan(k, sc.table))
  }

  /** `coinc_counts[channel_dict[key], step] += int(count)` inside `try ... except KeyError`:
      the dictionary lookup, then `step`, then the numpy index, then `int`. */
  function AddCount(dict: map<string, int>, width: nat, sc: Scan, key: string, count: string): (o: Outcome)
    requires Shaped(sc.table, width)
    ensures o.scan.step == sc.step && |o.scan.table| == |sc.table| && Shaped(o.scan.table, width)
    ensures key !in dict ==> o == Running(sc)
    ensures o.Crashed? ==> o.scan == sc
  {
    if key !in dict then Running(sc)
    else if sc.step.None? then Crashed(UnboundLocalError, sc)
    else
      var r := NumpyIndex(dict[key], |sc.table|);
      var c := NumpyIndex(sc.step.value, width);
      if r.None? || c.None? then Crashed(IndexError, sc)
      else
        var v := PyInt(count);
        if v.None? then Crashed(ValueError, sc)
        else Running(Scan(sc.step, AddCell(sc.table, width, r.value, c.value, v.value)))
  }

  /** What the loop body does with one line of the file. */
  function Feed(dict: map<string, int>, width: nat, o: Outcome, line: string): (o': Outcome)
    requires Shaped(o.scan.table, width)
    ensures |o'.scan.table| == |o.scan.table| && Shaped(o'.scan.table, width)
    ensures o.Crashed? ==> o' == o
    ensures IsMarker(line) || |Strip(line)| <= 1 ==> o'.scan.table == o.scan.table
  {
    if o.Crashed? then o
    else if IsMarker(line) then SetStep(o.scan, PyInt(Strip(line)))
    else if |Strip(line)| > 1 then AddCount(dict, width, o.scan, Partition(Strip(line)).0, Partition(Strip(line)).1)
    else o
  }

  /** The loop over the lines of the file, one `Feed` per line. */
  function Run(dict: map<string, int>, width: nat, o: Outcome, lines: seq<string>): (o': Outcome)
    requires Shaped(o.scan.table, width)
    ensures |o'.scan.table| == |o.scan.table| && Shaped(o'.scan.table, width)
    decreases |lines|
  {
    if lines == [] then o
    else Feed(dict, width, Run(dict, width, o, lines[..|lines| - 1]), lines[|lines| - 1])
  }

  /** `coinc_counts[i].sum()`. */
  function Sum(row: seq<int>): int {
    if row == [] then 0 else Sum(row[..|row| - 1]) + row[|row| - 1]
  }

  // ---------------------------------------------------------------------------
  // What one line does.

  /** A step marker `"%d\n"` sets the step and leaves the counts alone. */
  lemma MarkerLine(dict: map<string, int>, width: nat, sc: Scan, k: nat)
    requires Shaped(sc.table, width)
    ensures Feed(dict, width, Running(sc), Dec(k) + "\n") == Running(Scan(Some(k), sc.table))
  {
    var d := Dec(k);
    DecDigits(k);
    DigitIsNotSpace(d[0]);
    DigitIsNotSpace(d[|d| - 1]);
    DigitsAreNotSeparators(d);
    PyIntDec(k);
    MarkerText(dict, width, sc, d, k);
  }

  /** A negative step marker selects a column counted from the end. */
  lemma NegativeMarkerLine(dict: map<string, int>, width: nat, sc: Scan, k: nat)
    requires Shaped(sc.table, width)
    ensures Feed(dict, width, Running(sc), "-" + Dec(k) + "\n") == Running(Scan(Some(-(k as int)), sc.table))
  {
    var d := Dec(k);
    var m := "-" + d;
    DecDigits(k);
    DigitIsNotSpace(d[|d| - 1]);
    assert m[|m| - 1] == d[|d| - 1];
    DigitsAreNotSeparators(d);
    assert '_' !in m;
    PyIntNegDec(k);
    MarkerText(dict, width, sc, m, -(k as int));
  }

  /** A line holding a number without `_`, then the newline, sets the step to that number. */
  lemma MarkerText(dict: map<string, int>, width: nat, sc: Scan, m: string, k: int)
    requires Shaped(sc.table, width)
    requires m != [] && !IsSpace(m[0]) && !IsSpace(m[|m| - 1]) && '_' !in m && PyInt(m) == Some(k)
    ensures Feed(dict, width, Running(sc), m + "\n") == Running(Scan(Some(k), sc.table))
  {
    StripTrailing(m, "\n");
    assert '_' !in m + "\n";
  }

  /** A data line `"<key> <count>\n"` whose key is in the dictionary adds the
      count to exactly one cell: the key's row, at the current step. */
  lemma DataLine(dict: map<string, int>, width: nat, sc: Scan, key: string, v: nat)
    requires Shaped(sc.table, width)
    requires key != [] && !IsSpace(key[0]) && '_' in key && ' ' !in key
    requires key in dict && 0 <= dict[key] < |sc.table|
    requires sc.step.Some? && 0 <= sc.step.value < width
    ensures Feed(dict, width, Running(sc), key + " " + Dec(v) + "\n")
            == Running(Scan(sc.step, AddCell(sc.table, width, dict[key], sc.step.value, v)))
  {
    var line := key + " " + Dec(v) + "\n";
    DataLineParts(key, v);
    assert Feed(dict, width, Running(sc), line) == AddCount(dict, width, sc, key, Dec(v));
  }

  /** How the loop splits a data line: not a marker, longer than one character,
      the key before the first space and the count after it. */
  lemma DataLineParts(key: string, v: nat)
    requires key != [] && !IsSpace(key[0]) && '_' in key && ' ' !in key
    ensures var line := key + " " + Dec(v) + "\n";
            !IsMarker(line) && |Strip(line)| > 1 && Partition(Strip(line)) == (key, Dec(v))
    ensures PyInt(Dec(v)) == Some(v as int)
  {
    var d := Dec(v);
    var s := key + " " + d;
    DecDigits(v);
    DigitIsNotSpace(d[|d| - 1]);
    assert s[0] == key[0] && s[|s| - 1] == d[|d| - 1];
    StripTrailing(s, "\n");
    assert '_' in s + "\n" by {
      var i :| 0 <= i < |key| && key[i] == '_';
      assert (s + "\n")[i] == '_';
    }
    PartitionOfJoin(key, d);
    PyIntDec(v);
  }

  /** The lines the counter writes, `"%02d_%02d %d\n"`, are data lines of their pair's tag. */
  lemma TagDataLine(dict: map<string, int>, width: nat, sc: Scan, c1: nat, c2: nat, v: nat)
    requires Shaped(sc.table, width)
    requires Tag(c1, c2) in dict && 0 <= dict[Tag(c1, c2)] < |sc.table|
    requires sc.step.Some? && 0 <= sc.step.value < width
    ensures Feed(dict, width, Running(sc), Tag(c1, c2) + " " + Dec(v) + "\n")
            == Running(Scan(sc.step, AddCell(sc.table, width, dict[Tag(c1, c2)], sc.step.value, v)))
  {
    var key := Tag(c1, c2);
    TagShape(c1, c2);
    DigitIsNotSpace(key[0]);
    DataLine(dict, width, sc, key, v);
  }

  /** Adding v twice to one cell adds 2v. */
  lemma AddCellTwice(table: seq<seq<int>>, width: int, r: nat, c: nat, v: int)
    requires Shaped(table, width) && r < |table| && c < width
    ensures AddCell(AddCell(table, width, r, c, v), width, r, c, v) == AddCell(table, width, r, c, 2 * v)
  {
    var a, b := AddCell(AddCell(table, width, r, c, v), width, r, c, v), AddCell(table, width, r, c, 2 * v);
    forall i | 0 <= i < |table| ensures a[i] == b[i] {
      assert forall j :: 0 <= j < width ==> a[i][j] == b[i][j];
    }
  }

  /** Reading the same data line twice adds twice its count: counts accumulate. */
  lemma DataLineTwice(dict: map<string, int>, width: nat, sc: Scan, key: string, v: nat)
    requires Shaped(sc.table, width)
    requires key != [] && !IsSpace(key[0]) && '_' in key && ' ' !in key
    requires key in dict && 0 <= dict[key] < |sc.table|
    requires sc.step.Some? && 0 <= sc.step.value < width
    ensures var line := key + " " + Dec(v) + "\n";
            Run(dict, width, Running(sc), [line, line])
            == Running(Scan(sc.step, AddCell(sc.table, width, dict[key], sc.step.value, 2 * v)))
  {
    var line := key + " " + Dec(v) + "\n";
    var r, c := dict[key], sc.step.value;
    var once := AddCell(sc.table, width, r, c, v);
    DataLine(dict, width, sc, key, v);
    DataLine(dict, width, Scan(sc.step, once), key, v);
    AddCellTwice(sc.table, width, r, c, v);
    assert [line, line][..1] == [line] && [line][..0] == [];
    assert Run(dict, width, Running(sc), [line]) == Running(Scan(sc.step, once));
  }

  /** A line whose tag is not in the dictionary raises KeyError, which is caught:
      nothing changes, even before the first step marker. */
  lemma UnknownKey(dict: map<string, int>, width: nat, sc: Scan, line: string)
    requires Shaped(sc.table, width)
    requires |Strip(line)| > 1 && '_' in line && Partition(Strip(line)).0 !in dict
    ensures Feed(dict, width, Running(sc), line) == Running(sc)
  {
  }

  /** Blank lines, and one-character lines holding a `_`, are skipped. */
  lemma IgnoredLine(dict: map<string, int>, width: nat, sc: Scan, line: string)
    requires Shaped(sc.table, width)
    requires AllSpace(line) || (|Strip(line)| == 1 && '_' in line)
    ensures Feed(dict, width, Running(sc), line) == Running(sc)
  {
  }

  /** A data line before any step marker is an UnboundLocalError. */
  lemma DataBeforeMarker(dict: map<string, int>, width: nat, table: seq<seq<int>>, line: string)
    requires Shaped(table, width)
    requires |Strip(line)| > 1 && '_' in line && Partition(Strip(line)).0 in dict
    ensures Feed(dict, width, Running(Scan(None, table)), line) == Crashed(UnboundLocalError, Scan(None, table))
  {
  }

  // ---------------------------------------------------------------------------
  // What a run of lines does.

  /** Reading A then B is reading A + B. */
  lemma {:induction false} RunConcat(dict: map<string, int>, width: nat, o: Outcome, A: seq<string>, B: seq<string>)
    requires Shaped(o.scan.table, width)
    ensures Run(dict, width, o, A + B) == Run(dict, width, Run(dict, width, o, A), B)
    decreases |B|
  {
    if B == [] {
      assert A + B == A;
    } else {
      var B' := B[..|B| - 1];
      assert (A + B)[..|A + B| - 1] == A + B';
      RunConcat(dict, width, o, A, B');
    }
  }

  /** An exception ends the loop: no later line changes anything. */
  lemma {:induction false} RunCrashed(dict: map<string, int>, width: nat, o: Outcome, lines: seq<string>)
    requires Shaped(o.scan.table, width) && o.Crashed?
    ensures Run(dict, width, o, lines) == o
    decreases |lines|
  {
    if lines != [] { RunCrashed(dict, width, o, lines[..|lines| - 1]); }
  }

  /** A row no dictionary value points at is never written. */
  lemma {:induction false} UntouchedRow(dict: map<string, int>, width: nat, o: Outcome, lines: seq<string>, i: int)
    requires Shaped(o.scan.table, width) && 0 <= i < |o.scan.table|
    requires forall key :: key in dict ==> NumpyIndex(dict[key], |o.scan.table|) != Some(i)
    ensures Run(dict, width, o, lines).scan.table[i] == o.scan.table[i]
    decreases |lines|
  {
    if lines != [] {
      var lines' := lines[..|lines| - 1];
      UntouchedRow(dict, width, o, lines', i);
      FeedUntouchedRow(dict, width, Run(dict, width, o, lines'), lines[|lines| - 1], i);
    }
  }

  /** One line does not write a row no dictionary value points at. */
  lemma FeedUntouchedRow(dict: map<string, int>, width: nat, o: Outcome, line: string, i: int)
    requires Shaped(o.scan.table, width) && 0 <= i < |o.scan.table|
    requires forall key :: key in dict ==> NumpyIndex(dict[key], |o.scan.table|) != Some(i)
    ensures Feed(dict, width, o, line).scan.table[i] == o.scan.table[i]
  {
    if o.Running? && !IsMarker(line) && |Strip(line)| > 1 {
      AddCountUntouchedRow(dict, width, o.scan, Partition(Strip(line)).0, Partition(Strip(line)).1, i);
    }
  }

  lemma AddCountUntouchedRow(dict: map<string, int>, width: nat, sc: Scan, key: string, count: string, i: int)
    requires Shaped(sc.table, width) && 0 <= i < |sc.table|
    requires forall key :: key in dict ==> NumpyIndex(dict[key], |sc.table|) != Some(i)
    ensures AddCount(dict, width, sc, key, count).scan.table[i] == sc.table[i]
  {
    if key in dict {
      assert NumpyIndex(dict[key], |sc.table|) != Some(i);
    }
  }

  /** Each count is added to a row of the tag that names it: starting from an all-zero
      table, a row with a nonzero sum is the row of some dictionary key. */
  lemma NonzeroRowHasKey(dict: map<string, int>, width: nat, o: Outcome, lines: seq<string>, i: int)
    requires Shaped(o.scan.table, width) && 0 <= i < |o.scan.table| && Sum(o.scan.table[i]) == 0
    requires Sum(Run(dict, width, o, lines).scan.table[i]) != 0
    ensures exists key :: key in dict && NumpyIndex(dict[key], |o.scan.table|) == Some(i)
  {
    if forall key :: key in dict ==> NumpyIndex(dict[key], |o.scan.table|) != Some(i) {
      UntouchedRow(dict, width, o, lines, i);
    }
  }

  /** A row of zeros sums to zero. */
  lemma {:induction false} SumZeros(row: seq<int>)
    requires forall j :: 0 <= j < |row| ==> row[j] == 0
    ensures Sum(row) == 0
    decreases |row|
  {
    if row != [] { SumZeros(row[..|row| - 1]); }
  }

  // ---------------------------------------------------------------------------
  // The numpy array.

  /** The contents of the array, row by row. */
  function Table(a: array2<int>): (t: seq<seq<int>>)
    reads a
    ensures |t| == a.Length0 && Shaped(t, a.Length1)
  {
    seq(a.Length0, i requires 0 <= i < a.Length0 reads a =>
      seq(a.Length1, j requires 0 <= j < a.Length1 reads a => a[i, j]))
  }

  /** The loop at lines 34-44: feed each line of the file to the table, in
      place, stopping at the first exception that is not a KeyError. */
  method AccumulateCounts(lines: seq<string>, channelDict: map<string, int>, counts: array2<int>)
    returns (step: Option<int>, error: Option<Crash>)
    modifies counts
    ensures Finished(step, error, Table(counts))
            == Run(channelDict, counts.Length1, Running(Scan(None, old(Table(counts)))), lines)
  {
    ghost var start := Running(Scan(None, Table(counts)));
    step, error := None, None;
    var k := 0;
    while k < |lines| && error.None?
      invariant 0 <= k <= |lines|
      invariant Finished(step, error, Table(counts)) == Run(channelDict, counts.Length1, start, lines[..k])
      decreases |lines| - k
    {
      assert Finished(step, error, Table(counts)) == Running(Scan(step, Table(counts)));
      step, error := FeedLine(lines[k], channelDict, counts, step);
      RunStep(channelDict, counts.Length1, start, lines, k);
      k := k + 1;
    }
    StopEarly(channelDict, counts.Length1, start, lines, k, Finished(step, error, Table(counts)));
  }

  /** The loop may stop before the last line only because an exception escaped,
      and then the lines it did not read change nothing. */
  lemma StopEarly(dict: map<string, int>, width: nat, start: Outcome, lines: seq<string>, k: nat, o: Outcome)
    requires Shaped(start.scan.table, width) && k <= |lines|
    requires o == Run(dict, width, start, lines[..k]) && (k < |lines| ==> o.Crashed?)
    ensures Run(dict, width, start, lines) == o
  {
    if k < |lines| {
      PrefixSplit(lines, k);
      RunConcat(dict, width, start, lines[..k], lines[k..]);
      RunCrashed(dict, width, o, lines[k..]);
    } else {
      assert lines[..k] == lines;
    }
  }

  /** The body of the loop over the file, for one line, while no exception has been raised. */
  method FeedLine(line: string, channelDict: map<string, int>, counts: array2<int>, step0: Option<int>)
    returns (step: Option<int>, error: Option<Crash>)
    modifies counts
    ensures Finished(step, error, Table(counts))
            == Feed(channelDict, counts.Length1, Running(Scan(step0, old(Table(counts)))), line)
  {
    ghost var sc := Scan(step0, Table(counts));
    step, error := step0, None;
    var t := Strip(line);
    if |t| >= 1 && '_' !in line {
      var s := PyInt(t);
      if s.None? {
        error := Some(ValueError);
      } else {
        step := s;
      }
      assert Finished(step, error, Table(counts)) == SetStep(sc, PyInt(t));
    } else if |t| > 1 {
      error := AddCountTo(Partition(t).0, Partition(t).1, channelDict, counts, step);
    }
  }

  /** `coinc_counts[channel_dict[key], step] += int(count)` with its `except KeyError`. */
  method AddCountTo(key: string, count: string, channelDict: map<string, int>, counts: array2<int>, step: Option<int>)
    returns (error: Option<Crash>)
    modifies counts
    ensures Finished(step, error, Table(counts))
            == AddCount(channelDict, counts.Length1, Scan(step, old(Table(counts))), key, count)
  {
    error := None;
    if key in channelDict {
      if step.None? {
        error := Some(UnboundLocalError);
      } else {
        var r := NumpyIndex(channelDict[key], counts.Length0);
        var c := NumpyIndex(step.value, counts.Length1);
        if r.None? || c.None? {
          error := Some(IndexError);
        } else {
          var v := PyInt(count);
          if v.None? {
            error := Some(ValueError);
          } else {
            AddToCell(counts, r.value, c.value, v.value);
          }
        }
      }
    }
  }

  /** `coinc_counts[r, c] += v` on the numpy array. */
  method AddToCell(counts: array2<int>, r: nat, c: nat, v: int)
    requires r < counts.Length0 && c < counts.Length1
    modifies counts
    ensures Table(counts) == AddCell(old(Table(counts)), counts.Length1, r, c, v)
  {
    ghost var table := Table(counts);
    counts[r, c] := counts[r, c] + v;
    ghost var t := AddCell(table, counts.Length1, r, c, v);
    forall i | 0 <= i < counts.Length0 ensures Table(counts)[i] == t[i] {
      assert forall j :: 0 <= j < counts.Length1 ==> Table(counts)[i][j] == t[i][j];
    }
  }

  /** One more line is one more `Feed`. */
  lemma RunStep(dict: map<string, int>, width: nat, o: Outcome, lines: seq<string>, k: nat)
    requires Shaped(o.scan.table, width) && k < |lines|
    ensures Run(dict, width, o, lines[..k + 1]) == Feed(dict, width, Run(dict, width, o, lines[..k]), lines[k])
  {
    PrefixStep(lines, k);
  }

  lemma PrefixStep<T>(s: seq<T>, k: nat)
    requires k < |s|
    ensures s[..k + 1][..k] == s[..k] && s[..k + 1][k] == s[k]
  {
  }

  lemma PrefixSplit<T>(s: seq<T>, k: nat)
    requires k <= |s|
    ensures s == s[..k] + s[k..]
  {
  }
}
