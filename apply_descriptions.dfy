/**
 * The description patch command (products/management/commands/apply_descriptions.py):
 * for each `name -> description` pair of a JSON object, in the object's order,
 * the product with that name gets the new description unless it already has
 * it up to surrounding whitespace. Names no product has are collected; a
 * dry run changes nothing but counts the same.
 */
module ApplyDescriptions {
  import opened Wrappers
  import opened Text
  import opened Catalog
  import PyDict

  /** A JSON value of the mapping: a string, or anything else (number, list, null, ...). */
  datatype Json = JText(text: string) | JOther

  /** Why the command stops with an exception. */
  datatype Failure =
    | ReadFailed              // the file cannot be read or parsed: CommandError before any update
    | SeveralNamed(name: string)  // `Product.objects.get` finds more than one product
    | NotText(name: string)       // `desc.strip()` on a value that is not a string

  /** What `Product.objects.get(name=name)` finds. */
  datatype Lookup = NoMatch | Found(index: nat) | Several

  /** What the run leaves behind: the product rows, the counter, the missing names and the exception, if any. */
  datatype Report = Report(rows: seq<Product>, updated: nat, missing: seq<string>, failure: Option<Failure>)

  /** The positions of the rows called `name`, in increasing order. */
  function Matches(rows: seq<Product>, name: string): (r: seq<nat>)
    ensures forall x :: x in r ==> x < |rows|
    ensures forall k :: 0 <= k < |rows| ==> (k in r <==> rows[k].name == name)
    ensures forall a, b :: 0 <= a < b < |r| ==> r[a] < r[b]
  {
    if rows == [] then []
    else
      var m := Matches(rows[..|rows| - 1], name);
      assert forall a :: 0 <= a < |m| ==> m[a] < |rows| - 1 by {
        forall a | 0 <= a < |m| ensures m[a] < |rows| - 1 { assert m[a] in m; }
      }
      m + if rows[|rows| - 1].name == name then [|rows| - 1] else []
  }

  /** `Product.objects.get(name=name)`: no row, the one row, or more than one. */
  function FindByName(rows: seq<Product>, name: string): (r: Lookup)
    ensures r.NoMatch? <==> forall j :: 0 <= j < |rows| ==> rows[j].name != name
    ensures r.Found? ==>
      && r.index < |rows| && rows[r.index].name == name
      && forall j :: 0 <= j < |rows| && rows[j].name == name ==> j == r.index
    ensures r.Several? ==> exists i, j :: 0 <= i < j < |rows| && rows[i].name == name && rows[j].name == name
  {
    var m := Matches(rows, name);
    if |m| == 0 then NoMatch
    else if |m| == 1 then (assert m[0] in m; Found(m[0]))
    else (assert m[0] in m && m[1] in m; Several)
  }

  /** Two tables with the same names row by row. */
  predicate SameNames(a: seq<Product>, b: seq<Product>) {
    |a| == |b| && forall j :: 0 <= j < |a| ==> a[j].name == b[j].name
  }

  /** The lookup sees only the names. */
  lemma {:induction false} FindByNameSameNames(a: seq<Product>, b: seq<Product>, name: string)
    requires SameNames(a, b)
    ensures FindByName(a, name) == FindByName(b, name)
  {
    MatchesSameNames(a, b, name);
  }

  lemma {:induction false} MatchesSameNames(a: seq<Product>, b: seq<Product>, name: string)
    requires SameNames(a, b)
    ensures Matches(a, name) == Matches(b, name)
  {
    if a != [] {
      MatchesSameNames(a[..|a| - 1], b[..|b| - 1], name);
    }
  }

  /** One pass of the loop body for the pair `(name, desc)`; nothing happens once an exception is raised. */
  function Step(r: Report, name: string, desc: Json, dry: bool): Report {
    if r.failure.Some? then r
    else match FindByName(r.rows, name)
      case NoMatch => r.(missing := r.missing + [name])
      case Several => r.(failure := Some(SeveralNamed(name)))
      case Found(i) =>
        if !desc.JText? then r.(failure := Some(NotText(name)))
        else if Strip(r.rows[i].description) == Strip(desc.text) then r
        else if dry then r.(updated := r.updated + 1)
        else r.(rows := r.rows[i := r.rows[i].(description := desc.text)], updated := r.updated + 1)
  }

  /** The loop over `mapping.items()`, in order. */
  function Run(rows: seq<Product>, entries: PyDict.Dict<string, Json>, dry: bool): Report {
    if entries == [] then Report(rows, 0, [], None)
    else
      var (name, desc) := entries[|entries| - 1];
      Step(Run(rows, entries[..|entries| - 1], dry), name, desc, dry)
  }

  /** The whole command: `None` stands for a file that cannot be read or parsed as JSON. */
  function Apply(rows: seq<Product>, mapping: Option<PyDict.Dict<string, Json>>, dry: bool): Report {
    match mapping
    case None => Report(rows, 0, [], Some(ReadFailed))
    case Some(entries) => Run(rows, entries, dry)
  }

  /** A read or parse failure stops the command before any product is touched. */
  lemma ReadFailureChangesNothing(rows: seq<Product>, dry: bool)
    ensures Apply(rows, None, dry).rows == rows
    ensures Apply(rows, None, dry).failure == Some(ReadFailed)
  {
  }

  /** Row `a` and row `b` differ at most in their description. */
  predicate SameButDescription(a: Product, b: Product) {
    a == b.(description := a.description)
  }

  /** One step changes at most one description, and none in a dry run. */
  lemma StepShape(r: Report, name: string, desc: Json, dry: bool)
    ensures |Step(r, name, desc, dry).rows| == |r.rows|
    ensures forall j :: 0 <= j < |r.rows| ==> SameButDescription(Step(r, name, desc, dry).rows[j], r.rows[j])
    ensures dry ==> Step(r, name, desc, dry).rows == r.rows
  {
  }

  /** The run changes descriptions only: every row keeps its place and its other fields. */
  lemma {:induction false} RunShape(rows: seq<Product>, entries: PyDict.Dict<string, Json>, dry: bool)
    ensures |Run(rows, entries, dry).rows| == |rows|
    ensures forall j :: 0 <= j < |rows| ==> SameButDescription(Run(rows, entries, dry).rows[j], rows[j])
    ensures dry ==> Run(rows, entries, dry).rows == rows
  {
    if entries != [] {
      var init := entries[..|entries| - 1];
      RunShape(rows, init, dry);
      var (name, desc) := entries[|entries| - 1];
      StepShape(Run(rows, init, dry), name, desc, dry);
    }
  }

  /** The run over one more pair is one more step. */
  lemma RunPrefix(rows: seq<Product>, entries: PyDict.Dict<string, Json>, k: nat, dry: bool)
    requires k < |entries|
    ensures Run(rows, entries[..k + 1], dry) == Step(Run(rows, entries[..k], dry), entries[k].0, entries[k].1, dry)
  {
    assert entries[..k + 1][..k] == entries[..k];
  }

  /** Once an exception is raised, the later pairs change nothing. */
  lemma {:induction false} RunAfterFailure(rows: seq<Product>, entries: PyDict.Dict<string, Json>, k: nat, dry: bool)
    requires k <= |entries| && Run(rows, entries[..k], dry).failure.Some?
    ensures Run(rows, entries, dry) == Run(rows, entries[..k], dry)
  {
    if k < |entries| {
      assert entries[..|entries| - 1][..k] == entries[..k];
      RunAfterFailure(rows, entries[..|entries| - 1], k, dry);
    } else {
      assert entries[..k] == entries;
    }
  }

  /** The names of the pairs no product answers to, in mapping order. */
  function MissingNames(rows: seq<Product>, entries: PyDict.Dict<string, Json>): seq<string> {
    if entries == [] then []
    else
      var name := entries[|entries| - 1].0;
      MissingNames(rows, entries[..|entries| - 1]) + if FindByName(rows, name).NoMatch? then [name] else []
  }

  /** The pairs whose product's description differs from the new text once both are stripped. */
  predicate Differs(rows: seq<Product>, name: string, desc: Json) {
    match FindByName(rows, name)
    case Found(i) => desc.JText? && Strip(rows[i].description) != Strip(desc.text)
    case _ => false
  }

  function ChangeCount(rows: seq<Product>, entries: PyDict.Dict<string, Json>): nat {
    if entries == [] then 0
    else
      var (name, desc) := entries[|entries| - 1];
      ChangeCount(rows, entries[..|entries| - 1]) + if Differs(rows, name, desc) then 1 else 0
  }

  /** Row `j`'s description after a run without exception: the new text when it differed, else the old one. */
  function NewDescription(rows: seq<Product>, entries: PyDict.Dict<string, Json>, j: nat): string
    requires j < |rows|
  {
    match PyDict.Get(entries, rows[j].name)
    case Some(desc) =>
      if FindByName(rows, rows[j].name) == Found(j) && Differs(rows, rows[j].name, desc)
      then desc.text else rows[j].description
    case None => rows[j].description
  }

  /** A dry run and a real run report the same count, missing names and exception. */
  ghost predicate SameOutcome(rows: seq<Product>, entries: PyDict.Dict<string, Json>) {
    var w, d := Run(rows, entries, false), Run(rows, entries, true);
    d.updated == w.updated && d.missing == w.missing && d.failure == w.failure
  }

  /**
   * Without exception, the count is that of the products whose stripped
   * description differed from the new text, and the missing names are the
   * unknown ones in mapping order.
   */
  ghost predicate CountsRight(rows: seq<Product>, entries: PyDict.Dict<string, Json>) {
    var w := Run(rows, entries, false);
    w.failure.None? ==> w.updated == ChangeCount(rows, entries) && w.missing == MissingNames(rows, entries)
  }

  /** Without exception, every product holds its new description exactly when it differed. */
  ghost predicate DescriptionsRight(rows: seq<Product>, entries: PyDict.Dict<string, Json>) {
    var w := Run(rows, entries, false);
    && |w.rows| == |rows|
    && (w.failure.None? ==>
          forall j :: 0 <= j < |rows| ==> w.rows[j].description == NewDescription(rows, entries, j))
  }

  ghost predicate Agrees(rows: seq<Product>, entries: PyDict.Dict<string, Json>) {
    SameOutcome(rows, entries) && CountsRight(rows, entries) && DescriptionsRight(rows, entries)
  }

  /**
   * Before the pair for a name not seen before, the real run finds the same
   * product as on the original table, still holding its original description.
   */
  lemma LastPairSeesOriginal(rows: seq<Product>, entries: PyDict.Dict<string, Json>)
    requires PyDict.Valid(entries) && entries != []
    requires DescriptionsRight(rows, entries[..|entries| - 1])
    requires Run(rows, entries[..|entries| - 1], false).failure.None?
    ensures var w, name := Run(rows, entries[..|entries| - 1], false), entries[|entries| - 1].0;
      && FindByName(w.rows, name) == FindByName(rows, name)
      && (FindByName(rows, name).Found? ==>
            w.rows[FindByName(rows, name).index].description == rows[FindByName(rows, name).index].description)
  {
    var init := entries[..|entries| - 1];
    var name := entries[|entries| - 1].0;
    PyDict.LastKeyFresh(entries);
    RunShape(rows, init, false);
    var w := Run(rows, init, false);
    assert SameNames(w.rows, rows);
    FindByNameSameNames(w.rows, rows, name);
    if FindByName(rows, name).Found? {
      var i := FindByName(rows, name).index;
      assert NewDescription(rows, init, i) == rows[i].description;
    }
  }

  lemma SameOutcomeStep(rows: seq<Product>, entries: PyDict.Dict<string, Json>)
    requires PyDict.Valid(entries) && entries != []
    requires SameOutcome(rows, entries[..|entries| - 1]) && DescriptionsRight(rows, entries[..|entries| - 1])
    ensures SameOutcome(rows, entries)
  {
    var init := entries[..|entries| - 1];
    var (name, desc) := entries[|entries| - 1];
    RunShape(rows, init, true);
    var w, d := Run(rows, init, false), Run(rows, init, true);
    assert Run(rows, entries, false) == Step(w, name, desc, false);
    assert Run(rows, entries, true) == Step(d, name, desc, true);
    if w.failure.None? {
      LastPairSeesOriginal(rows, entries);
      assert d.rows == rows;
      StepsAgree(w, d, name, desc);
    }
  }

  /** A real and a dry step from reports that agree on the lookup and the found description report alike. */
  lemma StepsAgree(w: Report, d: Report, name: string, desc: Json)
    requires w.failure.None? && d.failure.None?
    requires w.updated == d.updated && w.missing == d.missing
    requires FindByName(w.rows, name) == FindByName(d.rows, name)
    requires FindByName(d.rows, name).Found? ==>
      w.rows[FindByName(d.rows, name).index].description == d.rows[FindByName(d.rows, name).index].description
    ensures var sw, sd := Step(w, name, desc, false), Step(d, name, desc, true);
      sw.updated == sd.updated && sw.missing == sd.missing && sw.failure == sd.failure
  {
  }

  lemma CountsStep(rows: seq<Product>, entries: PyDict.Dict<string, Json>)
    requires PyDict.Valid(entries) && entries != []
    requires CountsRight(rows, entries[..|entries| - 1]) && DescriptionsRight(rows, entries[..|entries| - 1])
    ensures CountsRight(rows, entries)
  {
    var init := entries[..|entries| - 1];
    var (name, desc) := entries[|entries| - 1];
    var w := Run(rows, init, false);
    assert Run(rows, entries, false) == Step(w, name, desc, false);
    if w.failure.None? {
      LastPairSeesOriginal(rows, entries);
      assert ChangeCount(rows, entries) == ChangeCount(rows, init) + if Differs(rows, name, desc) then 1 else 0;
      assert MissingNames(rows, entries) == MissingNames(rows, init) + if FindByName(rows, name).NoMatch? then [name] else [];
      StepCounts(rows, w, name, desc);
    }
  }

  /** A real step counts a change exactly when the text differed and lists the name exactly when nothing matched. */
  lemma StepCounts(rows: seq<Product>, w: Report, name: string, desc: Json)
    requires w.failure.None?
    requires FindByName(w.rows, name) == FindByName(rows, name)
    requires FindByName(rows, name).Found? ==>
      w.rows[FindByName(rows, name).index].description == rows[FindByName(rows, name).index].description
    ensures var s := Step(w, name, desc, false);
      s.failure.None? ==>
        && s.updated == w.updated + (if Differs(rows, name, desc) then 1 else 0)
        && s.missing == w.missing + if FindByName(rows, name).NoMatch? then [name] else []
  {
  }

  lemma DescriptionsStep(rows: seq<Product>, entries: PyDict.Dict<string, Json>)
    requires PyDict.Valid(entries) && entries != []
    requires DescriptionsRight(rows, entries[..|entries| - 1])
    ensures DescriptionsRight(rows, entries)
  {
    var init := entries[..|entries| - 1];
    var (name, desc) := entries[|entries| - 1];
    RunShape(rows, entries, false);
    RunShape(rows, init, false);
    var w := Run(rows, init, false);
    assert Run(rows, entries, false) == Step(w, name, desc, false);
    if w.failure.None? {
      LastPairSeesOriginal(rows, entries);
      PyDict.LastKeyFresh(entries);
      forall j | 0 <= j < |rows|
        ensures Step(w, name, desc, false).failure.None? ==>
          Step(w, name, desc, false).rows[j].description == NewDescription(rows, entries, j)
      {
        PyDict.GetLast(entries, rows[j].name);
        DescriptionAt(rows, init, w, name, desc, PyDict.Get(entries, rows[j].name), j);
      }
    }
  }

  /**
   * Row `j` after the pair `(name, desc)` for a name not seen before, by
   * cases on whether the pair names it; `now` is what the whole mapping maps
   * row `j`'s name to.
   */
  lemma DescriptionAt(rows: seq<Product>, init: PyDict.Dict<string, Json>, w: Report,
                      name: string, desc: Json, now: Option<Json>, j: nat)
    requires j < |rows| && |w.rows| == |rows| && w.failure.None?
    requires name !in PyDict.Keys(init)
    requires now == if rows[j].name in PyDict.Keys(init) then PyDict.Get(init, rows[j].name)
                    else if rows[j].name == name then Some(desc) else None
    requires w.rows[j].description == NewDescription(rows, init, j)
    requires FindByName(w.rows, name) == FindByName(rows, name)
    requires FindByName(rows, name).Found? ==>
      w.rows[FindByName(rows, name).index].description == rows[FindByName(rows, name).index].description
    ensures |Step(w, name, desc, false).rows| == |rows|
    ensures Step(w, name, desc, false).failure.None? ==>
      Step(w, name, desc, false).rows[j].description
        == match now
           case Some(d) =>
             if FindByName(rows, rows[j].name) == Found(j) && Differs(rows, rows[j].name, d)
             then d.text else rows[j].description
           case None => rows[j].description
  {
    if rows[j].name == name && FindByName(rows, name).Found? {
      assert FindByName(rows, name) == Found(j);
      assert PyDict.Get(init, name) == None;
    }
  }

  /** On a JSON object (whose keys are distinct), the real and the dry run agree as above. */
  lemma {:induction false} RunEffect(rows: seq<Product>, entries: PyDict.Dict<string, Json>)
    requires PyDict.Valid(entries)
    ensures Agrees(rows, entries)
  {
    if entries != [] {
      PyDict.LastKeyFresh(entries);
      RunEffect(rows, entries[..|entries| - 1]);
      SameOutcomeStep(rows, entries);
      CountsStep(rows, entries);
      DescriptionsStep(rows, entries);
    }
  }

  /** A dry run changes no description and reports what the real run reports. */
  lemma DryRunReportsTheSame(rows: seq<Product>, entries: PyDict.Dict<string, Json>)
    requires PyDict.Valid(entries)
    ensures Run(rows, entries, true).rows == rows
    ensures Run(rows, entries, true).(rows := rows) == Run(rows, entries, false).(rows := rows)
  {
    RunShape(rows, entries, true);
    RunEffect(rows, entries);
  }

  /** The product table the command updates. */
  class ProductTable {
    var rows: seq<Product>

    constructor (rows: seq<Product>)
      ensures this.rows == rows
    {
      this.rows := rows;
    }

    /**
     * `Command.handle`: the loop over the mapping, saving each changed
     * description (unless `dry`), counting it, and collecting unknown names.
     */
    method ApplyDescriptions(mapping: Option<PyDict.Dict<string, Json>>, dry: bool)
      returns (updated: nat, missing: seq<string>, failure: Option<Failure>)
      modifies this
      ensures Report(rows, updated, missing, failure) == Apply(old(rows), mapping, dry)
    {
      if mapping.None? {
        return 0, [], Some(ReadFailed);
      }
      var table;
      table, updated, missing, failure := RunEntries(rows, mapping.value, dry);
      rows := table;
    }
  }

  /**
   * The loop of `Command.handle` over the mapping's entries, on the table as
   * it stood when the command started.
   */
  method RunEntries(start: seq<Product>, entries: PyDict.Dict<string, Json>, dry: bool)
    returns (table: seq<Product>, updated: nat, missing: seq<string>, failure: Option<Failure>)
    ensures Report(table, updated, missing, failure) == Run(start, entries, dry)
  {
    table := start;
    updated, missing, failure := 0, [], None;
    for k := 0 to |entries|
      invariant Report(table, updated, missing, failure) == Run(start, entries[..k], dry)
      invariant failure.None?
    {
      var (name, desc) := entries[k];
      RunPrefix(start, entries, k, dry);
      var found := FindByName(table, name);
      if found.NoMatch? {
        missing := missing + [name];
        continue;
      }
      if found.Several? {
        failure := Some(SeveralNamed(name));
        RunAfterFailure(start, entries, k + 1, dry);
        return;
      }
      var i := found.index;
      if !desc.JText? {
        failure := Some(NotText(name));
        RunAfterFailure(start, entries, k + 1, dry);
        return;
      }
      if Strip(table[i].description) == Strip(desc.text) {
        continue;
      }
      if !dry {
        table := table[i := table[i].(description := desc.text)];
      }
      updated := updated + 1;
    }
    assert entries[..|entries|] == entries;
  }
}
