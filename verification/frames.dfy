/** A minimal pandas DataFrame: an ordered list of named columns of equal
    length, and the column bookkeeping `get_datasets` does on each loaded
    `progress.txt` (lines 166-170). */
module Frames {
  import opened Wrappers
  import opened Errors
  import Labels

  datatype Cell = Num(x: real) | Str(s: string)

  datatype Column = Column(name: string, cells: seq<Cell>)

  datatype Frame = Frame(rows: nat, columns: seq<Column>)

  /** Every column spans all rows and column names are unique (pandas
      disambiguates repeated headers when it reads a table). */
  predicate WellFormed(f: Frame) {
    && (forall k :: 0 <= k < |f.columns| ==> |f.columns[k].cells| == f.rows)
    && (forall i, j :: 0 <= i < j < |f.columns| ==> f.columns[i].name != f.columns[j].name)
  }

  /** Position of the column called `name`, or -1. */
  function Find(cols: seq<Column>, name: string): (k: int)
    ensures -1 <= k < |cols|
    ensures k >= 0 ==> cols[k].name == name
    ensures k == -1 ==> forall j :: 0 <= j < |cols| ==> cols[j].name != name
  {
    if |cols| == 0 then -1
    else if cols[|cols| - 1].name == name then |cols| - 1
    else Find(cols[..|cols| - 1], name)
  }

  /** `name in frame`: membership among the column labels. */
  predicate Has(f: Frame, name: string) {
    Find(f.columns, name) >= 0
  }

  /** `frame[name]`; a missing column raises `KeyError`. */
  function Get(f: Frame, name: string): (r: Result<seq<Cell>, Error>)
    requires WellFormed(f)
    ensures r.Success? <==> Has(f, name)
    ensures r.Success? ==> |r.value| == f.rows && r.value == f.columns[Find(f.columns, name)].cells
    ensures r.Failure? ==> r.error == MissingColumn(name)
  {
    var k := Find(f.columns, name);
    if k < 0 then Failure(MissingColumn(name)) else Success(f.columns[k].cells)
  }

  /** `frame.insert(len(frame.columns), name, cells)`: append a column at
      the end; an existing name raises `ValueError`. */
  function Append(f: Frame, name: string, cells: seq<Cell>): (r: Result<Frame, Error>)
    requires WellFormed(f) && |cells| == f.rows
    ensures r.Success? <==> !Has(f, name)
    ensures r.Failure? ==> r.error == DuplicateColumn(name)
    ensures r.Success? ==>
      && WellFormed(r.value)
      && r.value.rows == f.rows
      && r.value.columns == f.columns + [Column(name, cells)]
  {
    if Has(f, name) then Failure(DuplicateColumn(name))
    else Success(Frame(f.rows, f.columns + [Column(name, cells)]))
  }

  /** A scalar broadcast over every row. */
  function Fill(v: Cell, n: nat): (cells: seq<Cell>)
    ensures |cells| == n && forall k :: 0 <= k < n ==> cells[k] == v
  {
    seq(n, _ => v)
  }

  const SuccessColumn: string := "TestSuccess"
  const ReturnColumn: string := "AverageEpRet"

  /** Line 166: the success rate if logged, otherwise the average return. */
  function PerformanceSource(f: Frame): string {
    if Has(f, SuccessColumn) then SuccessColumn else ReturnColumn
  }

  /** The four synthetic columns, in the order they are appended. */
  const Synthetic: seq<string> := ["Unit", "Condition1", "Condition2", "Performance"]

  predicate NoClash(f: Frame) {
    forall k :: 0 <= k < |Synthetic| ==> !Has(f, Synthetic[k])
  }

  lemma FindSkipsOther(cols: seq<Column>, c: Column, name: string)
    requires c.name != name
    ensures Find(cols + [c], name) == Find(cols, name)
  {
    assert (cols + [c])[..|cols|] == cols;
  }

  /** The `ValueError` of the first identity column whose name is taken. */
  function FirstClash(f: Frame): Error {
    if Has(f, "Unit") then DuplicateColumn("Unit")
    else if Has(f, "Condition1") then DuplicateColumn("Condition1")
    else DuplicateColumn("Condition2")
  }

  /** Lines 167-169: the three identity columns. */
  function AppendTags(f: Frame, tag: Labels.Tag): (r: Result<Frame, Error>)
    requires WellFormed(f)
    ensures r.Success? <==> !Has(f, "Unit") && !Has(f, "Condition1") && !Has(f, "Condition2")
    ensures r.Failure? ==> r.error == FirstClash(f)
    ensures r.Success? ==>
      && WellFormed(r.value)
      && r.value.rows == f.rows
      && r.value.columns == f.columns + [Column("Unit", Fill(Num(tag.unit as real), f.rows)),
                                         Column("Condition1", Fill(Str(tag.condition1), f.rows)),
                                         Column("Condition2", Fill(Str(tag.condition2), f.rows))]
  {
    var withUnit :- Append(f, "Unit", Fill(Num(tag.unit as real), f.rows));
    var withC1 :- Append(withUnit, "Condition1", Fill(Str(tag.condition1), f.rows));
    Append(withC1, "Condition2", Fill(Str(tag.condition2), f.rows))
  }

  /** Lines 166-170: tag a loaded frame with its run identity and a
      `Performance` copy of the chosen metric. */
  function Decorate(f: Frame, tag: Labels.Tag): (r: Result<Frame, Error>)
    requires WellFormed(f)
    ensures r.Success? ==>
      var g := r.value;
      var n := |f.columns|;
      && WellFormed(g)
      && g.rows == f.rows
      && |g.columns| == n + 4
      && g.columns[..n] == f.columns
      && (forall k :: 0 <= k < 4 ==> g.columns[n + k].name == Synthetic[k])
      && (forall i :: 0 <= i < f.rows ==>
            && g.columns[n].cells[i] == Num(tag.unit as real)
            && g.columns[n + 1].cells[i] == Str(tag.condition1)
            && g.columns[n + 2].cells[i] == Str(tag.condition2))
      && (exists k :: 0 <= k < n && f.columns[k].name == PerformanceSource(f)
                      && g.columns[n + 3].cells == f.columns[k].cells)
  {
    var source := PerformanceSource(f);
    var tagged := AppendTags(f, tag);
    if tagged.Failure? then Failure(tagged.error)
    else
      TagsKeepLookups(f, tag, source);
      var perf := Get(tagged.value, source);
      if perf.Failure? then Failure(perf.error)
      else Append(tagged.value, "Performance", perf.value)
  }

  /** A frame is tagged exactly when none of the synthetic names is taken
      and one of the two metric columns is present; otherwise the script
      raises. */
  lemma DecorateSucceeds(f: Frame, tag: Labels.Tag)
    requires WellFormed(f)
    ensures Decorate(f, tag).Success? <==> NoClash(f) && (Has(f, SuccessColumn) || Has(f, ReturnColumn))
  {
    assert Synthetic[0] == "Unit" && Synthetic[1] == "Condition1";
    assert Synthetic[2] == "Condition2" && Synthetic[3] == "Performance";
    var tagged := AppendTags(f, tag);
    if tagged.Success? {
      TagsKeepLookups(f, tag, PerformanceSource(f));
      TagsKeepLookups(f, tag, "Performance");
    }
  }

  /** The exception a frame that cannot be tagged raises: the `ValueError`
      of the first insert of lines 167-169 whose name is taken, else the
      `KeyError` of reading the metric at line 170, else the `ValueError`
      of inserting `Performance`. */
  lemma DecorateRaises(f: Frame, tag: Labels.Tag)
    requires WellFormed(f)
    ensures Decorate(f, tag).Failure? ==>
      Decorate(f, tag).error ==
        if Has(f, "Unit") || Has(f, "Condition1") || Has(f, "Condition2") then FirstClash(f)
        else if !Has(f, PerformanceSource(f)) then MissingColumn(PerformanceSource(f))
        else DuplicateColumn("Performance")
  {
  }

  /** The identity columns do not hide or shadow any other column. */
  lemma TagsKeepLookups(f: Frame, tag: Labels.Tag, name: string)
    requires WellFormed(f) && AppendTags(f, tag).Success?
    requires name != "Unit" && name != "Condition1" && name != "Condition2"
    ensures Find(AppendTags(f, tag).value.columns, name) == Find(f.columns, name)
  {
    var cols := f.columns;
    var t := AppendTags(f, tag).value.columns;
    assert t == (cols + [t[|cols|]] + [t[|cols| + 1]]) + [t[|cols| + 2]];
    FindSkipsOther(cols, t[|cols|], name);
    FindSkipsOther(cols + [t[|cols|]], t[|cols| + 1], name);
    FindSkipsOther(cols + [t[|cols|]] + [t[|cols| + 1]], t[|cols| + 2], name);
  }
}
