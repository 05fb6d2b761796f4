# qlab: the permanent evaluator and the HOM coincidence reader, in Dafny

`qlab` is a small photonics-lab toolbox. This project models two pieces of it.

**The permanent evaluator.** The C extension module `qlab.utils.permanent` exports
`permanent(a)`, called as `qlab.utils.permanent.permanent(a)`. It computes the
permanent of a complex matrix with Ryser's formula (`qlab/utils/src/qlabmodule.c`).
The function `ryser` runs three nested loops:

- over the row masks `i` in `0 .. 2^n - 1`;
- over the columns `y`, multiplying the column sums together;
- over the rows `z` in the mask, summing the entries of column `y`.

Each mask's product is signed by `bitparity(i)`. The total is negated when `n` is odd.
The Python-facing wrapper raises `TypeError` for a non-complex array.

The model keeps the loops as methods over an `array2` of exact complex numbers.
They are proved equal to a specification function, `RyserValue`. That function is then
proved equal to the permanent, defined independently as the sum over all permutations
`s` of `prod_y A[s(y)][y]`. The proof of Ryser's identity holds for every `n`. It goes
through an alternating subset sum over a list of rows and a Laplace expansion along the
last column. A separate enumeration of permutations is proved to list each permutation
of the rows exactly once, and to list `n!` of them.

**The HOM coincidence reader.** `hom_plot` (`qlab/utils/hom_plot.py`) works up to the
point where it fits a dip. It proceeds in three stages.

- It numbers every pair of detector channels `1 <= c1 < c2 <= N` that is not excluded.
  Each pair gets the tag `"%02d_%02d" % (c1, c2)`, stored in `channel_dict` and in its
  inverse `inv_channel_dict`.
- It reads a coincidence file line by line. A line with no `_` and some non-space
  character is a step marker (`step = int(line.strip())`). Any other line that is longer
  than one character once stripped is a data line. Its count is added to
  `coinc_counts[channel_dict[tag], step]` when the tag is a key; otherwise the line is
  skipped.
- It selects the rows with a nonzero sum and prints their tags.

The model keeps Python's own semantics where they decide the outcome:

- `str.strip`, `str.partition` and `"%02d"`;
- `int()` with a sign and underscores between digit groups;
- numpy's wrap-around for a negative step index;
- the evaluation order of `a[d[k], step] += int(c)`.

That evaluation order fixes which exception escapes first:

- a missing key raises `KeyError`, which is caught and the line skipped;
- then an unbound `step` raises `UnboundLocalError`;
- then an index out of range raises `IndexError`;
- then a malformed count raises `ValueError`.

Any exception that escapes ends the loop. The model records the table as it was at
that point.

The modules are:

- `ComplexNumbers`: exact complex arithmetic.
- `Sequences`: distinct elements, shared by both pieces.
- `SubsetSums`: alternating subset sums over a list of rows.
- `Permanents`: the permanent, arrangements and the Laplace expansion.
- `RyserIdentity`: Ryser's identity.
- `QlabPermanent`: masks, bit parity, and the C loops and wrapper.
- `PermanentExamples`: the 2×2, identity and all-ones matrices.
- `PyText`: Python string and integer conversions.
- `ChannelIndex`: the pair dictionaries.
- `Coincidences`: the file loop.
- `HomPlot`: the whole function up to the fits.

`ryser` recomputes every column sum for each mask and runs single-threaded. It checks
neither the shape nor the size of the array. It sums the entries of a column over the
rows of the mask. The model's bound `n <= 30` is only a precondition, because `1 << n`
must fit in a C `int`.

## Model

| member | source | states |
|---|---|---|
| QlabPermanent.Ryser | qlab/utils/src/qlabmodule.c:30-51 | the three loops return Ryser's sum with `bitparity` signs and the final odd-`n` negation, and that value is the permanent of the rows of the array |
| QlabPermanent.MaskedProduct | qlab/utils/src/qlabmodule.c:37-46 | `rowsumprod` is the product, over all n columns, of the column sums restricted to the rows of mask `i` |
| QlabPermanent.MaskedColumnSum | qlab/utils/src/qlabmodule.c:39-44 | `rowsum` is the sum of column `y` over exactly the rows `z` with bit `z` of `i` set |
| QlabPermanent.PermanentOf | qlab/utils/src/qlabmodule.c:54-66 | a non-complex dtype gives `TypeError("Array dtype must be `complex`.")`; every complex dtype gives a value, and for complex128, the type `ryser` reads, that value is the permanent |
| QlabPermanent.RyserValueIsPermanent | qlab/utils/src/qlabmodule.c:30-51 | for every matrix, the value the loops compute equals the sum over all permutations |
| QlabPermanent.RyserValueIsAltSum | qlab/utils/src/qlabmodule.c:36-49 | the loops compute Ryser's alternating subset sum over rows 0 .. n-1, with the global sign (-1)^n |
| QlabPermanent.MaskSumIsAltSum | qlab/utils/src/qlabmodule.c:36-48 | summing `bitparity(i) * h(rows of i)` over all masks below 2^n is (-1)^n times the alternating sum of h over subsets of rows |
| QlabPermanent.RyserSigns | qlab/utils/src/qlabmodule.c:47-49 | after the odd-`n` negation, each mask's term carries the sign (-1)^(n - number of rows in the mask) |
| QlabPermanent.SignedTermsScale | qlab/utils/src/qlabmodule.c:47-49 | the sum of explicitly signed terms over the first m masks is (-1)^n times the `bitparity`-signed sum |
| QlabPermanent.MaskRoundTrip | qlab/utils/src/qlabmodule.c:36-41 | the rows a mask below 2^n selects determine the mask back |
| QlabPermanent.SetRoundTrip | qlab/utils/src/qlabmodule.c:36-41 | every set of rows below n is selected by some mask below 2^n, so the outer loop visits every subset |
| QlabPermanent.MaskSetSize | qlab/utils/src/qlabmodule.c:41-47 | a mask below 2^n selects exactly popcount(i) rows, at most n |
| QlabPermanent.PopCountHigh | qlab/utils/src/qlabmodule.c:47 | setting the top bit n of a mask below 2^n adds one to its popcount |
| QlabPermanent.ParityFlip | qlab/utils/src/qlabmodule.c:47 | one more set bit flips `bitparity` |
| QlabPermanent.BitsOfHigh | qlab/utils/src/qlabmodule.c:41 | bit z of i + 2^n is bit z of i, except bit n, which is set |
| QlabPermanent.BitsAboveZero | qlab/utils/src/qlabmodule.c:34-41 | a mask below 2^n has no bit set at or above n |
| QlabPermanent.MaskSetHigh | qlab/utils/src/qlabmodule.c:36-41 | mask i + 2^n selects the rows of i plus row n |
| QlabPermanent.Bit | qlab/utils/src/qlabmodule.c:41 | `(i & (1 << z)) != 0` holds exactly when the z-th binary digit of i, `(i / 2^z) % 2`, is 1 |
| QlabPermanent.BitParity | qlab/utils/src/qlabmodule.c:47 | `bitparity(i)` is a sign, +1 or -1 (its square is 1), and is +1 for the empty mask |
| QlabPermanent.EmptyMaskTerm | qlab/utils/src/qlabmodule.c:36-45 | the empty mask selects no row and contributes a zero product once n >= 1 |
| RyserIdentity.RyserIsPermanent | qlab/utils/src/qlabmodule.c:30-51 | Ryser's inclusion-exclusion sum over subsets of rows 0 .. n-1 equals the permanent |
| Permanents.PermanentIsLaplace | qlab/utils/src/qlabmodule.c:30-51 | the permanent expands along its last column, the recursion Ryser's sum also satisfies |
| Permanents.ArrangementsArePermutations | qlab/utils/src/qlabmodule.c:30-51 | a sequence is listed among the arrangements of L exactly when it is a permutation of L |
| Permanents.ArrangementsDistinct | qlab/utils/src/qlabmodule.c:30-51 | for rows without repetition, no arrangement is listed twice |
| Permanents.ArrangementsCount | qlab/utils/src/qlabmodule.c:30-51 | there are exactly \|L\|! arrangements |
| PermanentExamples.TwoByTwo | qlab/utils/src/qlabmodule.c:30-51 | for [[a, b], [c, d]] the loops give ad + bc |
| PermanentExamples.IdentityPermanent | qlab/utils/src/qlabmodule.c:30-51 | the identity matrix of every size has permanent 1 |
| PermanentExamples.AllOnesPermanent | qlab/utils/src/qlabmodule.c:30-51 | the n-by-n all-ones matrix has permanent n! |
| ChannelIndex.BuildChannelIndex | qlab/utils/hom_plot.py:14-29 | the loops build `channel_dict` and `inv_channel_dict` from the allowed pairs in lexicographic order. The two are mutually inverse over 0 .. i-1, with i = C(n', 2) <= N(N-1), where n' is the number of non-excluded channels |
| ChannelIndex.IndexPairs | qlab/utils/hom_plot.py:14-29 | starting from empty dictionaries and `i = 0`, the outer loop leaves exactly the dictionaries and the count of all allowed pairs |
| ChannelIndex.IndexNextRow | qlab/utils/hom_plot.py:19-29 | one pass of the outer loop takes the dictionaries from the pairs of rows 1 .. c1-1 to those of rows 1 .. c1 |
| ChannelIndex.IndexRow | qlab/utils/hom_plot.py:20-29 | one pass of the inner loop appends the tags of channel c1's allowed partners to both dictionaries, in increasing c2 |
| ChannelIndex.IndexPartner | qlab/utils/hom_plot.py:21-29 | one partner c2 is registered when neither channel is excluded; otherwise nothing changes |
| ChannelIndex.Register | qlab/utils/hom_plot.py:23-29 | the tag gets the next index in both dictionaries and the counter advances |
| ChannelIndex.ChannelPairsMembers | qlab/utils/hom_plot.py:19-21 | a pair gets an index exactly when 1 <= c1 < c2 <= N and neither channel is excluded |
| ChannelIndex.ChannelPairsSorted | qlab/utils/hom_plot.py:19-20 | indices follow the lexicographic order of (c1, c2) |
| ChannelIndex.SortedTagsDistinct | qlab/utils/hom_plot.py:22-23 | the tags of distinct pairs differ, so no `update` overwrites an earlier index |
| ChannelIndex.ChannelPairsCount | qlab/utils/hom_plot.py:19-29 | the counter ends at C(n', 2) for n' non-excluded channels |
| ChannelIndex.ChannelPairsFit | qlab/utils/hom_plot.py:17-29 | the counter never exceeds the N(N-1) rows of the table |
| ChannelIndex.Choose2Closed | qlab/utils/hom_plot.py:17-29 | 2·C(x, 2) = x(x-1) |
| ChannelIndex.IndexKeyInverse | qlab/utils/hom_plot.py:23-24 | a key-to-position and a position-to-key dictionary built from distinct keys are inverse to each other |
| ChannelIndex.ChannelIndexFacts | qlab/utils/hom_plot.py:14-29 | the dictionaries have domain 0 .. i-1 and every tag maps into it, in both directions |
| PyText.TagSplit | qlab/utils/hom_plot.py:22 | splitting a `"%02d_%02d"` tag at its first `_` gives back the two `"%02d"` fields |
| PyText.Pad2Digits | qlab/utils/hom_plot.py:22 | `"%02d"` writes only digits, at least two of them |
| PyText.TagInjective | qlab/utils/hom_plot.py:22 | different channel pairs get different `"%02d_%02d"` tags |
| PyText.TagShape | qlab/utils/hom_plot.py:22 | a tag starts and ends with a digit, holds `_` and no space |
| PyText.Pad2Value | qlab/utils/hom_plot.py:22 | reading back the digits `"%02d"` writes gives the number |
| PyText.Pad2Injective | qlab/utils/hom_plot.py:22 | `"%02d"` writes different numbers differently |
| PyText.DecValue | qlab/utils/hom_plot.py:22 | reading back the decimal digits under `"%02d"` gives the number |
| PyText.DecDigits | qlab/utils/hom_plot.py:22 | the decimal digits under `"%02d"` are at least one, and two or more exactly from 10 on, so the padding only ever adds one zero |
| PyText.SplitFirstJoin | qlab/utils/hom_plot.py:22 | splitting at the first `_` undoes joining two `_`-free strings around `_` |
| PyText.Strip | qlab/utils/hom_plot.py:36-39 | `strip` returns a contiguous piece of the line whose cut-off ends are all whitespace and whose own ends are not |
| PyText.StripEmpty | qlab/utils/hom_plot.py:36-38 | `strip` leaves something exactly when the line holds a non-space character |
| PyText.Partition | qlab/utils/hom_plot.py:39 | `partition(" ")` gives a space-free head; with a space, head + `" "` + tail is the line, and without one the tail is empty |
| PyText.PyInt | qlab/utils/hom_plot.py:37-41 | `int` succeeds only on text that holds a digit |
| PyText.StripTrailing | qlab/utils/hom_plot.py:36-39 | `strip` removes trailing whitespace, such as a line's newline |
| PyText.StripNoSpace | qlab/utils/hom_plot.py:36-39 | `strip` leaves a string without surrounding whitespace unchanged |
| PyText.PyIntDec | qlab/utils/hom_plot.py:37-41 | `int` reads back what `"%d"` writes |
| PyText.PyIntNegDec | qlab/utils/hom_plot.py:37 | `int` reads back a minus sign followed by `"%d"` as the negative number |
| PyText.PyIntDigits | qlab/utils/hom_plot.py:37-41 | `int` of a plain digit string is its decimal value |
| PyText.PyIntUnderscore | qlab/utils/hom_plot.py:37-41 | `int` accepts one `_` between digit groups and ignores it |
| PyText.PartitionOfJoin | qlab/utils/hom_plot.py:39-41 | `partition(" ")` splits a space-free key from the rest of the line |
| Coincidences.AccumulateCounts | qlab/utils/hom_plot.py:32-44 | after the loop, the step and the table are what feeding the lines one by one gives, stopping at the first escaping exception |
| Coincidences.FeedLine | qlab/utils/hom_plot.py:35-44 | one pass of the loop body changes the step and the table as the line-by-line specification says |
| Coincidences.AddCountTo | qlab/utils/hom_plot.py:40-44 | the augmented assignment raises, in order, KeyError (caught), UnboundLocalError, IndexError or ValueError; otherwise it adds the count to one cell |
| Coincidences.IsMarker | qlab/utils/hom_plot.py:36 | a line is a step marker exactly when it holds no `_` and some non-space character |
| Coincidences.Feed | qlab/utils/hom_plot.py:35-44 | one line keeps the table's shape; after an escaped exception nothing changes; marker lines and lines of at most one stripped character never change the counts |
| Coincidences.AddCount | qlab/utils/hom_plot.py:40-44 | the augmented assignment keeps the step and the table's shape; an unknown key changes nothing; an escaping exception leaves the step and the table as they were |
| Coincidences.StopEarly | qlab/utils/hom_plot.py:34-44 | leaving the loop early, on an escaped exception, gives the same outcome as reading every line |
| Coincidences.AddToCell | qlab/utils/hom_plot.py:41 | exactly cell [r, c] grows by v |
| Coincidences.NumpyIndex | qlab/utils/hom_plot.py:41 | an index is valid exactly in -size .. size-1 and is then taken modulo size |
| Coincidences.MarkerLine | qlab/utils/hom_plot.py:36-37 | a `"%d\n"` line sets the step and leaves the counts unchanged |
| Coincidences.NegativeMarkerLine | qlab/utils/hom_plot.py:36-37 | a `"-%d\n"` line sets a negative step |
| Coincidences.DataLine | qlab/utils/hom_plot.py:38-41 | `"<key> <v>\n"` with a known key adds v to that key's row at the current step and to nothing else |
| Coincidences.TagDataLine | qlab/utils/hom_plot.py:38-41 | a line in the `"%02d_%02d %d\n"` format adds its count to its pair's row |
| Coincidences.DataLineTwice | qlab/utils/hom_plot.py:41 | counts accumulate: the same line twice adds twice its count |
| Coincidences.UnknownKey | qlab/utils/hom_plot.py:42-44 | a line whose tag is not a key is skipped without changing anything |
| Coincidences.IgnoredLine | qlab/utils/hom_plot.py:35-38 | blank lines, and one-character lines holding `_`, change nothing |
| Coincidences.DataBeforeMarker | qlab/utils/hom_plot.py:37-41 | a data line before any step marker raises UnboundLocalError |
| Coincidences.RunConcat | qlab/utils/hom_plot.py:34 | reading A and then B is reading A + B |
| Coincidences.RunCrashed | qlab/utils/hom_plot.py:34 | after an exception escapes, no later line changes anything |
| Coincidences.UntouchedRow | qlab/utils/hom_plot.py:41 | a row that no dictionary value points at is never written |
| Coincidences.NonzeroRowHasKey | qlab/utils/hom_plot.py:41-47 | a row with a nonzero sum is the row of some key |
| Coincidences.AddCellTwice | qlab/utils/hom_plot.py:41 | adding v twice to a cell adds 2v |
| HomPlot.HomPlotRows | qlab/utils/hom_plot.py:10-47 | up to the fits, the function stops with an escaping exception exactly when reading the file does. Otherwise it selects exactly the rows with a nonzero sum, in order, each labelled with the tag of the pair that owns it |
| HomPlot.SelectRows | qlab/utils/hom_plot.py:46-47 | the loop selects exactly the nonzero rows, in increasing order, and looks up their tags |
| HomPlot.NonzeroRowsMembers | qlab/utils/hom_plot.py:46-47 | a row is selected exactly when its sum is nonzero, and the selected rows increase |
| HomPlot.NewCounts | qlab/utils/hom_plot.py:17 | `np.zeros` gives a fresh all-zero table of the requested shape |
| HomPlot.RowCount | qlab/utils/hom_plot.py:17 | the table has N(N-1) rows, a non-negative number |
| HomPlot.NonzeroRowCounted | qlab/utils/hom_plot.py:62 | every nonzero row has an entry in `inv_channel_dict`, so the print at line 62 cannot raise KeyError |
| HomPlot.TagsOfRows | qlab/utils/hom_plot.py:62 | the printed label of each selected row is the tag of its own pair |

## Left out

- Floating point: the model computes in exact complex arithmetic. It does not capture rounding, `-Ofast` reassociation or the `float` conversions `PyComplex_FromDoubles` makes.
- `PyArg_ParseTuple` and the rest of the C-API glue: the array arrives as an `array2` with a dtype tag. The `NULL` return for a non-array argument is not modelled.
- `bitparity` in bithacks.h and the `SM` macro in npy_util.h are not part of this model. They are taken to be (-1)^popcount(i) and `M[z, y]`.
- QlabPermanent.Ryser: requires `n <= 30`. For `n >= 31`, `1 << n` overflows a C `int`, which is undefined behaviour. The code has no check, and the model does not describe what happens then.
- QlabPermanent.PermanentOf: promises the permanent only for complex128. `PyArray_ISCOMPLEX` also accepts complex64 and clongdouble arrays, whose entries `ryser` reads as complex128; that gives wrong values and reads past the buffer. For those dtypes the model only says that a value is returned.
- QlabPermanent.Ryser: requires at least as many columns as rows. With fewer, `SM(z, y)` reads outside the array.
- Other array shapes (not two-dimensional, strided views) are not modelled.
- The transpose form of the permanent is not proved equal. The permanent is stated with permutations mapping columns to rows, which is the form Ryser's loop sums.
- `int()` accepts the ASCII digits only. Unicode decimal digits and CPython's limit on the number of digits are not modelled. Whitespace, for `strip` and for `int()`, is Python's full `str.isspace` set.
- Coincidences.AddToCell: the counts are unbounded integers. numpy's `int64` wrap-around on overflow is not modelled.
- The `print` of an unknown key at line 43 is not modelled; the line is just skipped.
- `center`, `HOM_func`, `curve_fit`, `starting_par`, the plots and the prints of fit results (lines 6-8, 11-12 and 48-70) are not modelled. They are floating-point fits and output.
- Opening and reading the file (line 32) is left out. The file arrives as a sequence of lines, each ending as Python delivers it.
- HomPlot.HomPlotRows: does not model the exceptions of the fits after line 47. `curve_fit` raises TypeError when `steps_number < 4`, because `p0` (built at line 48 and passed at line 55) has four parameters, and can raise ValueError and others. Only RuntimeError is caught (line 58).
- HomPlot.HomPlotRows: `steps_number` is a `nat`. A negative value makes `np.zeros` raise, which is not modelled.
- HomPlot.HomPlotRows: `channels_number` is passed as an `int`. numpy's `arange` on other numeric types is not modelled.
- The lab controllers, plotting helpers and `setup.py` are not modelled.
