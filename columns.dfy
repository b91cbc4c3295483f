/** Column names of the two kinds of table: the statement of changes in equity ("DMPL",
    `_get_dmpl_columns_names`) and the other financial statements (`_get_dfs_columns_names`).
    Each takes the texts of the column-header elements of a page, cleans them and puts them
    into the order the table shows. */
module Columns {
  import opened Results
  import opened Text

  /** The page whose headers every DMPL table uses, whatever page the table is on. */
  const DmplReferencePage := 7

  /** Display order of the DMPL headers: output j is header DmplOrder[j]. */
  const DmplOrder: seq<nat> := [3, 0, 4, 7, 1, 5, 6, 2]

  /** Display order of the other tables' headers. */
  const DfsOrder: seq<nat> := [1, 0, 2, 3, 4]

  /** The label of the prior-period column. */
  const PriorPeriod := "Penúltimo Exercício"

  /** `h.strip().replace('\n', '')` */
  function Clean(h: string): (r: string)
    ensures '\n' !in r
  {
    RemoveChar(Strip(h), '\n')
  }

  /** Cleaning an already clean header changes nothing. */
  lemma CleanIdempotent(h: string)
    ensures Clean(Clean(h)) == Clean(h)
  {
    var t := Strip(h);
    var u := RemoveChar(t, '\n');
    if t != [] {
      assert u[0] == t[0];
      RemoveCharKeepsLast(t, '\n');
    }
    StripTrimmed(u);
  }

  function CleanAll(headers: seq<string>): (r: seq<string>)
  {
    seq(|headers|, i requires 0 <= i < |headers| => Clean(headers[i]))
  }

  /** `[c[i] for i in order]` */
  function Permute(c: seq<string>, order: seq<nat>): (r: seq<string>)
    requires forall j | 0 <= j < |order| :: order[j] < |c|
  {
    seq(|order|, j requires 0 <= j < |order| => c[order[j]])
  }

  /** `_get_dmpl_columns_names` given the header texts of the reference page. */
  function DmplColumns(headers: seq<string>): (r: Result<seq<string>>)
    ensures r.Ok? <==> |headers| >= 8
    ensures r.Err? ==> r.error == IndexError
    ensures r.Ok? ==> |r.value| == 8 && forall j | 0 <= j < 8 :: r.value[j] == Clean(headers[DmplOrder[j]])
  {
    var c := CleanAll(headers);
    if |c| < 8 then Err(IndexError) else Ok(Permute(c, DmplOrder))
  }

  /** Position of header i in the DMPL output: the inverse of `DmplOrder`. */
  const DmplPosition: seq<nat> := [1, 4, 7, 0, 2, 5, 6, 3]

  /** `DmplOrder` and `DmplPosition` undo each other, so the order is a bijection on 0..7. */
  lemma DmplOrderIsBijection()
    ensures forall j | 0 <= j < 8 :: DmplOrder[j] < 8 && DmplPosition[DmplOrder[j]] == j
    ensures forall i | 0 <= i < 8 :: DmplPosition[i] < 8 && DmplOrder[DmplPosition[i]] == i
  {
  }

  /** Reordering any eight names by the DMPL order puts name i at `DmplPosition[i]`. */
  lemma DmplOrderPlacesEveryName(c: seq<string>)
    requires |c| >= 8
    ensures forall i | 0 <= i < 8 :: Permute(c, DmplOrder)[DmplPosition[i]] == c[i]
  {
    DmplOrderIsBijection();
  }

  /** Every one of the first eight cleaned headers appears in the DMPL columns, at the place
      `DmplPosition` gives it; with the eight outputs this makes the columns a rearrangement. */
  lemma DmplColumnsArePermutation(headers: seq<string>)
    requires |headers| >= 8
    ensures forall i | 0 <= i < 8 :: DmplColumns(headers).value[DmplPosition[i]] == Clean(headers[i])
  {
    DmplOrderPlacesEveryName(CleanAll(headers));
  }

  /** The reordering reads nothing past the largest index of the order. */
  lemma PermuteReadsPrefix(c: seq<string>, order: seq<nat>, k: nat)
    requires k <= |c|
    requires forall j | 0 <= j < |order| :: order[j] < k
    ensures Permute(c, order) == Permute(c[..k], order)
  {
  }

  /** Headers after the eighth do not reach the result. */
  lemma DmplExtraHeadersIgnored(headers: seq<string>, extra: seq<string>)
    requires |headers| >= 8
    ensures DmplColumns(headers + extra) == DmplColumns(headers)
  {
    var c, d := CleanAll(headers + extra), CleanAll(headers);
    assert c[..8] == d[..8] by {
      forall i | 0 <= i < 8 ensures c[i] == d[i] {
        assert (headers + extra)[i] == headers[i];
      }
    }
    PermuteReadsPrefix(c, DmplOrder, 8);
    PermuteReadsPrefix(d, DmplOrder, 8);
  }

  /** A header with no surrounding white space and no line break is already clean. */
  lemma CleanKeepsTidyHeader(h: string)
    requires h == [] || (!IsSpace(h[0]) && !IsSpace(h[|h| - 1]))
    requires '\n' !in h
    ensures Clean(h) == h
  {
    StripTrimmed(h);
  }

  /** Output j of the DMPL order is name `DmplOrder[j]`, written out. */
  lemma DmplOrderPicks(c: seq<string>)
    requires |c| >= 8
    ensures Permute(c, DmplOrder) == [c[3], c[0], c[4], c[7], c[1], c[5], c[6], c[2]]
  {
  }

  /** Headers that are all tidy come out of cleaning unchanged. */
  lemma CleanAllKeepsTidyHeaders(headers: seq<string>)
    requires forall i | 0 <= i < |headers| :: '\n' !in headers[i]
    requires forall i | 0 <= i < |headers| ::
      headers[i] == [] || (!IsSpace(headers[i][0]) && !IsSpace(headers[i][|headers[i]| - 1]))
    ensures CleanAll(headers) == headers
  {
    forall i | 0 <= i < |headers| ensures CleanAll(headers)[i] == headers[i] {
      CleanKeepsTidyHeader(headers[i]);
    }
  }

  /** Eight one-letter headers "a" ... "h" come out as "d", "a", "e", "h", "b", "f", "g", "c". */
  lemma DmplColumnsExample()
    ensures DmplColumns(["a", "b", "c", "d", "e", "f", "g", "h"]) == Ok(["d", "a", "e", "h", "b", "f", "g", "c"])
  {
    var hs := ["a", "b", "c", "d", "e", "f", "g", "h"];
    CleanAllKeepsTidyHeaders(hs);
    DmplOrderPicks(hs);
  }

  /** The cleaned headers after the two prior-period columns are merged: the second-to-last gets
      the label in front, and the label is taken out of the last. */
  function Merged(c: seq<string>): (r: seq<string>)
    requires |c| >= 2
    ensures |r| == |c|
  {
    var n := |c|;
    c[n - 2 := PriorPeriod + " " + c[n - 2]][n - 1 := Strip(RemoveAll(c[n - 1], PriorPeriod))]
  }

  /** `_get_dfs_columns_names` given the header texts of the table's page. */
  function DfsColumns(headers: seq<string>): (r: Result<seq<string>>)
    ensures r.Ok? <==> |headers| >= 5
    ensures r.Err? ==> r.error == IndexError
    ensures r.Ok? ==> |r.value| == 5
  {
    var c := CleanAll(headers);
    if |c| < 2 then Err(IndexError)
    else
      var m := Merged(c);
      if |m| < 5 then Err(IndexError) else Ok(Permute(m, DfsOrder))
  }

  /** The merge leaves every name but the last two alone. */
  lemma MergedKeepsFront(c: seq<string>)
    requires |c| >= 2
    ensures |Merged(c)| == |c|
    ensures forall i | 0 <= i < |c| - 2 :: Merged(c)[i] == c[i]
    ensures Merged(c)[|c| - 2] == PriorPeriod + " " + c[|c| - 2]
    ensures Merged(c)[|c| - 1] == Strip(RemoveAll(c[|c| - 1], PriorPeriod))
  {
  }

  /** Merging adds no line break to names that have none. */
  lemma MergedHasNoNewline(c: seq<string>)
    requires |c| >= 2
    requires forall i | 0 <= i < |c| :: '\n' !in c[i]
    ensures |Merged(c)| == |c| && forall i | 0 <= i < |c| :: '\n' !in Merged(c)[i]
  {
    var n := |c|;
    MergedKeepsFront(c);
    assert '\n' !in PriorPeriod + " " by {
      forall k | 0 <= k < |PriorPeriod + " "| ensures (PriorPeriod + " ")[k] != '\n' {
      }
    }
    assert '\n' !in PriorPeriod + " " + c[n - 2];
    RemoveAllKeepsChars(c[n - 1], PriorPeriod);
    StripIsSlice(RemoveAll(c[n - 1], PriorPeriod));
    assert '\n' !in Strip(RemoveAll(c[n - 1], PriorPeriod));
  }

  /** No cleaned header contains a line break. */
  lemma CleanAllHasNoNewline(headers: seq<string>)
    ensures forall i | 0 <= i < |headers| :: '\n' !in CleanAll(headers)[i]
  {
    forall i | 0 <= i < |headers| ensures '\n' !in CleanAll(headers)[i] {
      assert CleanAll(headers)[i] == RemoveChar(Strip(headers[i]), '\n');
    }
  }

  /** Reordering names that have no line break gives names that have none. */
  lemma PermuteHasNoNewline(c: seq<string>, order: seq<nat>)
    requires forall j | 0 <= j < |order| :: order[j] < |c|
    requires forall i | 0 <= i < |c| :: '\n' !in c[i]
    ensures forall j | 0 <= j < |order| :: '\n' !in Permute(c, order)[j]
  {
  }

  /** No DMPL column name contains a line break. */
  lemma DmplColumnsHaveNoNewline(headers: seq<string>)
    requires |headers| >= 8
    ensures forall j | 0 <= j < 8 :: '\n' !in DmplColumns(headers).value[j]
  {
    CleanAllHasNoNewline(headers);
    PermuteHasNoNewline(CleanAll(headers), DmplOrder);
  }

  /** No DFS column name contains a line break, the two merged ones included. */
  lemma DfsColumnsHaveNoNewline(headers: seq<string>)
    requires |headers| >= 5
    ensures forall j | 0 <= j < 5 :: '\n' !in DfsColumns(headers).value[j]
  {
    var c := CleanAll(headers);
    CleanAllHasNoNewline(headers);
    MergedHasNoNewline(c);
    PermuteHasNoNewline(Merged(c), DfsOrder);
  }

  /** With five names both merged columns come last, the prefixed one before the stripped one. */
  lemma DfsOrderOfFive(c: seq<string>)
    requires |c| == 5
    ensures Permute(Merged(c), DfsOrder)
         == [c[1], c[0], c[2], PriorPeriod + " " + c[3], Strip(RemoveAll(c[4], PriorPeriod))]
  {
  }

  /** With six names only the prefixed column appears, last; the stripped one is dropped. */
  lemma DfsOrderOfSix(c: seq<string>)
    requires |c| == 6
    ensures Permute(Merged(c), DfsOrder) == [c[1], c[0], c[2], c[3], PriorPeriod + " " + c[4]]
  {
  }

  /** With seven names or more neither merged column reaches the result. */
  lemma DfsOrderOfSevenOrMore(c: seq<string>)
    requires |c| >= 7
    ensures Permute(Merged(c), DfsOrder) == Permute(c, DfsOrder)
  {
  }

  /** `_get_dfs_columns_names` on five headers: the prior-period label is moved from the last
      header to the one before it. */
  lemma DfsColumnsOfFive(headers: seq<string>)
    requires |headers| == 5
    ensures var c := CleanAll(headers);
      DfsColumns(headers) == Ok([c[1], c[0], c[2], PriorPeriod + " " + c[3], Strip(RemoveAll(c[4], PriorPeriod))])
  {
    DfsOrderOfFive(CleanAll(headers));
  }

  /** `_get_dfs_columns_names` on six headers: the prefixed column is the fifth output and the
      label-stripped last header is lost. */
  lemma DfsColumnsOfSix(headers: seq<string>)
    requires |headers| == 6
    ensures var c := CleanAll(headers);
      DfsColumns(headers) == Ok([c[1], c[0], c[2], c[3], PriorPeriod + " " + c[4]])
  {
    DfsOrderOfSix(CleanAll(headers));
  }

  /** From seven headers on the result is just the first five cleaned headers reordered. */
  lemma DfsWideTableIgnoresMerge(headers: seq<string>)
    requires |headers| >= 7
    ensures DfsColumns(headers) == Ok(Permute(CleanAll(headers), DfsOrder))
  {
    DfsOrderOfSevenOrMore(CleanAll(headers));
  }

  /** A last header "Penúltimo Exercício" + dates, whose dates do not repeat the label, keeps
      only the stripped dates. */
  lemma PriorPeriodLabelRemoved(dates: string)
    requires !Contains(dates, PriorPeriod)
    ensures Strip(RemoveAll(PriorPeriod + dates, PriorPeriod)) == Strip(dates)
  {
    RemoveAllLeading(PriorPeriod, dates);
    RemoveAllAbsent(dates, PriorPeriod);
  }

  /** Output j of the DFS order is name `DfsOrder[j]`, written out. */
  lemma DfsOrderPicks(m: seq<string>)
    requires |m| >= 5
    ensures Permute(m, DfsOrder) == [m[1], m[0], m[2], m[3], m[4]]
  {
  }

  /** Lines 101-102 of `_get_dfs_columns_names`: the last two cleaned names are overwritten in
      place, the second-to-last with the label in front, the last with the label taken out. */
  method MergePriorPeriod(names: array<string>)
    requires names.Length >= 2
    modifies names
    ensures names[..] == Merged(old(names[..]))
  {
    ghost var c := names[..];
    MergedKeepsFront(c);
    var n := names.Length;
    names[n - 2] := PriorPeriod + " " + names[n - 2];
    names[n - 1] := Strip(RemoveAll(names[n - 1], PriorPeriod));
    assert forall i | 0 <= i < n :: names[i] == Merged(c)[i];
  }

  /** Line 100 of `_get_dfs_columns_names`: a fresh list of the cleaned header texts. */
  method CleanHeaders(headers: seq<string>) returns (names: array<string>)
    ensures fresh(names) && names[..] == CleanAll(headers)
  {
    names := new string[|headers|];
    for i := 0 to |headers|
      invariant names[..i] == CleanAll(headers)[..i]
    {
      names[i] := Clean(headers[i]);
    }
    assert names[..] == names[..|headers|];
  }

  /** `_get_dfs_columns_names` as the source runs it: the cleaned headers go into a list whose
      last two elements are overwritten in place before the reordering. */
  method ResolveDfsColumns(headers: seq<string>) returns (r: Result<seq<string>>)
    ensures r == DfsColumns(headers)
  {
    var names := CleanHeaders(headers);
    var n := names.Length;
    if n < 2 {
      return Err(IndexError);
    }
    MergePriorPeriod(names);
    if n < 5 {
      return Err(IndexError);
    }
    DfsOrderPicks(names[..]);
    r := Ok([names[1], names[0], names[2], names[3], names[4]]);
  }
}
