/**
 * The part of a pandas DataFrame that the indicator engine uses: a date
 * index and named float columns of the same length, updated in place.
 */
module Frame {
  import opened Ieee

  /** A trading day, as a day number; calendar parsing is not modelled. */
  type Date = int

  type Columns = map<string, seq<Float>>

  /** Every column has `n` entries. */
  ghost predicate Shaped(columns: Columns, n: nat)
  {
    forall c | c in columns :: |columns[c]| == n
  }

  /** Row `i` has a value in every column and none of them is NaN. */
  predicate Complete(columns: Columns, i: nat)
  {
    forall c | c in columns :: i < |columns[c]| && !columns[c][i].NaN?
  }

  /**
   * The rows among the first `n` that `dropna()` keeps, in their original
   * order: exactly the complete ones.
   */
  function CompleteRows(columns: Columns, n: nat): (rows: seq<nat>)
    ensures |rows| <= n
    ensures forall j :: 0 <= j < |rows| ==> rows[j] < n && Complete(columns, rows[j])
    ensures forall j, k :: 0 <= j < k < |rows| ==> rows[j] < rows[k]
    ensures forall i :: 0 <= i < n && Complete(columns, i) ==> i in rows
  {
    if n == 0 then []
    else
      var prev := CompleteRows(columns, n - 1);
      var last := if Complete(columns, n - 1) then [n - 1] else [];
      var rows := prev + last;
      assert forall j :: 0 <= j < |prev| ==> rows[j] == prev[j];
      assert forall i :: 0 <= i < n - 1 && Complete(columns, i) ==> i in prev;
      rows
  }

  predicate Fits<T>(s: seq<T>, rows: seq<nat>)
  {
    forall j :: 0 <= j < |rows| ==> rows[j] < |s|
  }

  /** The entries of `s` at the given rows, in the order given. */
  function Pick<T>(s: seq<T>, rows: seq<nat>): (r: seq<T>)
    requires Fits(s, rows)
    ensures |r| == |rows|
    ensures forall j :: 0 <= j < |rows| ==> r[j] == s[rows[j]]
  {
    seq(|rows|, j requires 0 <= j < |rows| => s[rows[j]])
  }

  function PickColumns(columns: Columns, rows: seq<nat>): (r: Columns)
    requires forall c | c in columns :: Fits(columns[c], rows)
    ensures r.Keys == columns.Keys
    ensures forall c | c in r :: r[c] == Pick(columns[c], rows)
  {
    map c | c in columns :: Pick(columns[c], rows)
  }

  /** A strictly increasing index stays strictly increasing under a strictly increasing selection. */
  lemma PickKeepsOrder(index: seq<Date>, rows: seq<nat>)
    requires Fits(index, rows)
    requires forall j, k :: 0 <= j < k < |index| ==> index[j] < index[k]
    requires forall j, k :: 0 <= j < k < |rows| ==> rows[j] < rows[k]
    ensures forall j, k :: 0 <= j < k < |rows| ==> Pick(index, rows)[j] < Pick(index, rows)[k]
  {
  }

  class DataFrame {
    var index: seq<Date>
    var columns: Columns

    ghost predicate Valid()
      reads this
    {
      Shaped(columns, |index|)
    }

    constructor (index: seq<Date>, columns: Columns)
      requires Shaped(columns, |index|)
      ensures Valid() && this.index == index && this.columns == columns
    {
      this.index := index;
      this.columns := columns;
    }

    /** `df[name] = values`: adds the column or replaces it. */
    method SetColumn(name: string, values: seq<Float>)
      requires Valid() && |values| == |index|
      modifies this
      ensures Valid() && index == old(index)
      ensures columns == old(columns)[name := values]
    {
      columns := columns[name := values];
    }

    /** `dropna(inplace=True)`: keeps the complete rows, in order, in the index and every column. */
    method DropNa()
      requires Valid()
      modifies this
      ensures Valid()
      ensures var kept := CompleteRows(old(columns), |old(index)|);
        index == Pick(old(index), kept) && columns == PickColumns(old(columns), kept)
    {
      var kept := CompleteRows(columns, |index|);
      index := Pick(index, kept);
      columns := PickColumns(columns, kept);
    }
  }
}
