/** `hom_plot` (qlab/utils/hom_plot.py, lines 10-47) up to the fits: index the
    channel pairs, allocate the zero table, read the coincidence file into it,
    and pick the rows with counts, each printed under its tag. */
module HomPlot {
  import opened PyText
  import opened ChannelIndex
  import opened Coincidences

  /** The table of zeros `np.zeros((rows, width), dtype=int)` holds. */
  function Zeros(rows: nat, width: nat): (t: seq<seq<int>>)
    ensures |t| == rows && Shaped(t, width)
  {
    seq(rows, i => seq(width, j => 0))
  }

  /** The rows whose sum is not zero, among rows 0 .. k-1, in increasing order. */
  function NonzeroRowsOf(table: seq<seq<int>>, k: nat): seq<int>
    requires k <= |table|
  {
    if k == 0 then []
    else NonzeroRowsOf(table, k - 1) + (if Sum(table[k - 1]) != 0 then [k - 1] else [])
  }

  /** The rows `NonzeroRowsOf` selects are exactly those with a nonzero sum, in
      increasing order. */
  lemma {:induction false} NonzeroRowsMembers(table: seq<seq<int>>, k: nat)
    requires k <= |table|
    ensures forall i :: i in NonzeroRowsOf(table, k) <==> 0 <= i < k && Sum(table[i]) != 0
    ensures forall a, b :: 0 <= a < b < |NonzeroRowsOf(table, k)| ==> NonzeroRowsOf(table, k)[a] < NonzeroRowsOf(table, k)[b]
  {
    if k > 0 {
      NonzeroRowsMembers(table, k - 1);
      var P := NonzeroRowsOf(table, k - 1);
      assert forall a :: 0 <= a < |P| ==> P[a] < k - 1 by {
        forall a | 0 <= a < |P| ensures P[a] < k - 1 { assert P[a] in P; }
      }
    }
  }

  /** `channels_number * (channels_number - 1)` is never negative, so `np.zeros` accepts it. */
  lemma RowsNonNegative(n: int)
    ensures n * (n - 1) >= 0
  {
    if n < 0 {
      assert n * (n - 1) == (-n) * (1 - n);
    }
  }

  /** The number of rows of the table, `channels_number * (channels_number - 1)`. */
  function RowCount(n: int): (r: nat)
    ensures r == n * (n - 1)
  {
    RowsNonNegative(n);
    n * (n - 1)
  }

  /** `np.zeros((rows, width), dtype=int)`. */
  method NewCounts(rows: nat, width: nat) returns (counts: array2<int>)
    ensures fresh(counts) && counts.Length0 == rows && counts.Length1 == width
    ensures Table(counts) == Zeros(rows, width)
  {
    counts := new int[rows, width]((i, j) => 0);
    forall i | 0 <= i < rows ensures Table(counts)[i] == Zeros(rows, width)[i] {
      assert forall j :: 0 <= j < width ==> Table(counts)[i][j] == 0;
    }
  }

  /** What reading the file does to the zero table, with the dictionary the channels give. */
  function FileOutcome(channelsNumber: int, exclude: seq<int>, stepsNumber: nat, lines: seq<string>): Outcome {
    Run(DictOf(ChannelPairs(channelsNumber, exclude)), stepsNumber,
        Running(Scan(None, Zeros(RowCount(channelsNumber), stepsNumber))), lines)
  }

  /** The loop at lines 46-47 (and the `print` at line 62): the rows whose counts
      do not sum to zero, with the tag each one is printed under. */
  method SelectRows(counts: array2<int>, invChannelDict: map<int, string>) returns (selected: seq<int>, labels: seq<string>)
    requires forall i :: 0 <= i < counts.Length0 && Sum(Table(counts)[i]) != 0 ==> i in invChannelDict
    ensures selected == NonzeroRowsOf(Table(counts), counts.Length0)
    ensures |labels| == |selected| && forall k :: 0 <= k < |selected| ==> selected[k] in invChannelDict && labels[k] == invChannelDict[selected[k]]
  {
    selected, labels := [], [];
    var i := 0;
    while i < counts.Length0
      invariant 0 <= i <= counts.Length0
      invariant selected == NonzeroRowsOf(Table(counts), i)
      invariant |labels| == |selected| && forall k :: 0 <= k < |selected| ==> selected[k] in invChannelDict && labels[k] == invChannelDict[selected[k]]
    {
      if Sum(Table(counts)[i]) != 0 {
        selected := selected + [i];
        labels := labels + [invChannelDict[i]];
      }
      i := i + 1;
    }
  }

  /** `hom_plot(steps_number, channels_number, file, exclude_channels)` up to the fits:
      the exception that ends the file loop, if any; otherwise the rows selected for
      fitting, which are exactly the nonzero rows of the table the file gives, each
      labelled with the tag of the channel pair it counts. */
  method HomPlotRows(stepsNumber: nat, channelsNumber: int, exclude: seq<int>, lines: seq<string>)
    returns (error: Option<Crash>, selected: seq<int>, labels: seq<string>)
    ensures var o := FileOutcome(channelsNumber, exclude, stepsNumber, lines);
            (error.None? <==> o.Running?) && (error.Some? ==> error.value == o.error)
    ensures var o := FileOutcome(channelsNumber, exclude, stepsNumber, lines);
            o.Running? ==> selected == NonzeroRowsOf(o.scan.table, RowCount(channelsNumber))
    ensures var P := ChannelPairs(channelsNumber, exclude);
            error.None? ==> |labels| == |selected| && forall k :: 0 <= k < |selected| ==>
              0 <= selected[k] < |P| && labels[k] == Tag(P[selected[k]].0, P[selected[k]].1)
  {
    ghost var P := ChannelPairs(channelsNumber, exclude);
    var channelDict, invChannelDict, count := BuildChannelIndex(channelsNumber, exclude);
    var counts := NewCounts(RowCount(channelsNumber), stepsNumber);
    var step;
    step, error := AccumulateCounts(lines, channelDict, counts);
    selected, labels := [], [];
    if error.None? {
      forall i | 0 <= i < counts.Length0 && Sum(Table(counts)[i]) != 0 ensures i in invChannelDict {
        NonzeroRowCounted(channelDict, invChannelDict, count, stepsNumber, counts.Length0, lines, i);
      }
      selected, labels := SelectRows(counts, invChannelDict);
      TagsOfRows(P, invChannelDict, selected, labels);
    }
  }

  /** A row with counts in it belongs to an indexed pair, so `inv_channel_dict[i]`
      at line 62 does not raise. */
  lemma NonzeroRowCounted(channelDict: map<string, int>, invChannelDict: map<int, string>, count: nat,
                          width: nat, rows: nat, lines: seq<string>, i: int)
    requires count <= rows && forall t :: t in channelDict ==> 0 <= channelDict[t] < count
    requires forall t :: t in channelDict ==> channelDict[t] in invChannelDict
    requires 0 <= i < rows
    requires Sum(Run(channelDict, width, Running(Scan(None, Zeros(rows, width))), lines).scan.table[i]) != 0
    ensures i in invChannelDict
  {
    var z := Zeros(rows, width);
    SumZeros(z[i]);
    NonzeroRowHasKey(channelDict, width, Running(Scan(None, z)), lines, i);
    var key :| key in channelDict && NumpyIndex(channelDict[key], rows) == Some(i);
  }

  /** The label of each selected row is the tag of the pair that owns the row. */
  lemma TagsOfRows(P: seq<Pair>, invChannelDict: map<int, string>, selected: seq<int>, labels: seq<string>)
    requires invChannelDict == InvDictOf(P)
    requires |labels| == |selected| && forall k :: 0 <= k < |selected| ==> selected[k] in invChannelDict && labels[k] == invChannelDict[selected[k]]
    ensures forall k :: 0 <= k < |selected| ==> 0 <= selected[k] < |P| && labels[k] == Tag(P[selected[k]].0, P[selected[k]].1)
  {
    KeyAtMembers(Tags(P));
  }
}
