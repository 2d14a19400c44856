/**
 * The carry-forward import that both database seeders run: a list of JSON rows
 * is read top to bottom; a row with a non-blank parent name makes that parent
 * current (found by name, or created), and a row with a non-blank child name
 * creates one child under the current parent. Rows before the first parent
 * create no child.
 *
 * A JSON row is modelled as a map from key to string; a missing key reads as
 * the empty string. Table rows get their position as id.
 */
module Seeding {
  import opened Wrappers
  import opened Text
  import opened Lists

  /** The two names a JSON row carries, trimmed; "" stands for a blank name. */
  datatype Row = Row(parent: string, child: string)

  datatype Child = Child(parentId: nat, name: string)

  /** The trimmed value of key in item, the empty string when it is missing. */
  function Field(item: map<string, string>, key: string): (r: string)
    ensures r != [] ==> !IsTrimmed(r[0]) && !IsTrimmed(r[|r| - 1])
    ensures key in item ==> r == Trim(item[key])
    ensures key !in item ==> r == ""
  {
    Trim(if key in item then item[key] else "")
  }

  function ReadRow(item: map<string, string>, parentKey: string, childKey: string): Row {
    Row(Field(item, parentKey), Field(item, childKey))
  }

  function ReadRows(items: seq<map<string, string>>, parentKey: string, childKey: string): (rows: seq<Row>)
    ensures |rows| == |items|
    ensures forall i :: 0 <= i < |items| ==> rows[i] == ReadRow(items[i], parentKey, childKey)
  {
    seq(|items|, i requires 0 <= i < |items| => ReadRow(items[i], parentKey, childKey))
  }

  /** The parent current after the given rows: the last non-blank parent name, if any. */
  function LastParent(rows: seq<Row>): (r: Option<string>)
    ensures r.Some? ==> r.value != ""
  {
    if rows == [] then None
    else if rows[|rows| - 1].parent != "" then Some(rows[|rows| - 1].parent)
    else LastParent(rows[..|rows| - 1])
  }

  /** The (parent name, child name) pairs the rows create, in order. */
  function Created(rows: seq<Row>): seq<(string, string)> {
    if rows == [] then []
    else
      var previous := Created(rows[..|rows| - 1]);
      var child := rows[|rows| - 1].child;
      var parent := LastParent(rows);
      if child != "" && parent.Some? then previous + [(parent.value, child)] else previous
  }

  /** The parent table after the rows: each non-blank name not yet present is added at the end. */
  function ParentsAfter(parents: seq<string>, rows: seq<Row>): seq<string> {
    if rows == [] then parents
    else
      var previous := ParentsAfter(parents, rows[..|rows| - 1]);
      var name := rows[|rows| - 1].parent;
      if name == "" || name in previous then previous else previous + [name]
  }

  /** Index of the first occurrence of name in names; |names| when there is none. */
  function IndexOf(names: seq<string>, name: string): (i: nat)
    ensures i <= |names|
    ensures i < |names| ==> names[i] == name
    ensures i == |names| <==> name !in names
  {
    if names == [] then 0
    else if names[0] == name then 0
    else 1 + IndexOf(names[1..], name)
  }

  /** Every child after the first n points at the parent and carries the name that expected lists, in order. */
  predicate AddedAre(parents: seq<string>, children: seq<Child>, n: nat, expected: seq<(string, string)>) {
    n + |expected| == |children|
    && forall j :: n <= j < |children| ==>
      children[j].parentId < |parents| && (parents[children[j].parentId], children[j].name) == expected[j - n]
  }

  /** Adding parents at the end keeps the existing children's parents as they were. */
  lemma ParentsGrow(before: seq<string>, after: seq<string>, children: seq<Child>, n: nat, expected: seq<(string, string)>)
    requires before <= after && AddedAre(before, children, n, expected)
    ensures AddedAre(after, children, n, expected)
  {
    forall j | n <= j < |children|
      ensures children[j].parentId < |after| && after[children[j].parentId] == before[children[j].parentId]
    {
      var id := children[j].parentId;
      assert after[..|before|] == before;
      assert after[..|before|][id] == after[id];
    }
  }

  /** One more child keeps the earlier ones and adds the expected pair at the end. */
  lemma ChildAdded(parents: seq<string>, children: seq<Child>, n: nat, expected: seq<(string, string)>, id: nat, name: string)
    requires AddedAre(parents, children, n, expected) && id < |parents|
    ensures AddedAre(parents, children + [Child(id, name)], n, expected + [(parents[id], name)])
  {
    var children', expected' := children + [Child(id, name)], expected + [(parents[id], name)];
    forall j | n <= j < |children'|
      ensures children'[j].parentId < |parents| && (parents[children'[j].parentId], children'[j].name) == expected'[j - n]
    {
      if j < |children| {
        assert children'[j] == children[j] && expected'[j - n] == expected[j - n];
      }
    }
  }

  /** What one more row does to the current parent, the parent table and the created children. */
  lemma AppendRow(ps: seq<string>, rows: seq<Row>, row: Row)
    ensures var current := LastParent(rows + [row]);
      var previous := ParentsAfter(ps, rows);
      && current == (if row.parent != "" then Some(row.parent) else LastParent(rows))
      && ParentsAfter(ps, rows + [row]) == (if row.parent == "" || row.parent in previous then previous else previous + [row.parent])
      && Created(rows + [row]) == Created(rows) + (if row.child != "" && current.Some? then [(current.value, row.child)] else [])
  {
    assert (rows + [row])[..|rows|] == rows;
  }

  /** What one row does to the tables and to the current parent. */
  predicate RowEffect(row: Row, ps: seq<string>, cs: seq<Child>, current: Option<nat>, ps': seq<string>, cs': seq<Child>, next: Option<nat>) {
    && ps' == (if row.parent == "" || row.parent in ps then ps else ps + [row.parent])
    && (row.parent == "" ==> next == current)
    && (row.parent != "" ==> next.Some? && next.value < |ps'| && ps'[next.value] == row.parent)
    && cs' == cs + (if row.child != "" && next.Some? then [Child(next.value, row.child)] else [])
  }

  /** The tables and the current parent after importing rows onto the tables ps0 and cs0. */
  ghost predicate Imported(ps0: seq<string>, cs0: seq<Child>, rows: seq<Row>, ps: seq<string>, cs: seq<Child>, current: Option<nat>) {
    && ps == ParentsAfter(ps0, rows)
    && (current.Some? <==> LastParent(rows).Some?)
    && (current.Some? ==> current.value < |ps| && ps[current.value] == LastParent(rows).value)
    && cs0 <= cs
    && AddedAre(ps, cs, |cs0|, Created(rows))
  }

  /** Importing row i after the rows before it gives the state of importing rows 0..i. */
  lemma ImportedStep(ps0: seq<string>, cs0: seq<Child>, rows: seq<Row>, i: nat,
                     ps: seq<string>, cs: seq<Child>, current: Option<nat>, ps': seq<string>, cs': seq<Child>, next: Option<nat>)
    requires i < |rows|
    requires Imported(ps0, cs0, rows[..i], ps, cs, current)
    requires RowEffect(rows[i], ps, cs, current, ps', cs', next)
    ensures Imported(ps0, cs0, rows[..i + 1], ps', cs', next)
  {
    var row := rows[i];
    assert rows[..i + 1] == rows[..i] + [row];
    AppendRow(ps0, rows[..i], row);
    var created := Created(rows[..i]);
    ParentsGrow(ps, ps', cs, |cs0|, created);
    if row.child != "" && next.Some? {
      ChildAdded(ps', cs, |cs0|, created, next.value, row.child);
    }
  }

  /** There is no current parent exactly when every parent name so far is blank. */
  lemma {:induction false} LastParentNone(rows: seq<Row>)
    ensures LastParent(rows).None? <==> forall i :: 0 <= i < |rows| ==> rows[i].parent == ""
  {
    if rows != [] {
      var init := rows[..|rows| - 1];
      LastParentNone(init);
      assert forall i :: 0 <= i < |init| ==> init[i] == rows[i];
    }
  }

  /** No row after row i names a parent. */
  predicate NoParentAfter(rows: seq<Row>, i: nat) {
    forall k :: i < k < |rows| ==> rows[k].parent == ""
  }

  /** The current parent is named on one of the rows, and no later row names a parent. */
  lemma {:induction false} LastParentIsRow(rows: seq<Row>)
    requires LastParent(rows).Some?
    ensures exists i :: 0 <= i < |rows| && rows[i].parent == LastParent(rows).value && NoParentAfter(rows, i)
  {
    var last := |rows| - 1;
    if rows[last].parent == "" {
      var init := rows[..last];
      LastParentIsRow(init);
      var i :| 0 <= i < |init| && init[i].parent == LastParent(init).value && NoParentAfter(init, i);
      assert init[i] == rows[i];
      assert NoParentAfter(rows, i) by {
        assert forall k :: i < k < last ==> init[k] == rows[k];
      }
    } else {
      assert NoParentAfter(rows, last);
    }
  }

  /** The import keeps the earlier parents in front. */
  lemma {:induction false} ParentsAfterKeeps(ps: seq<string>, rows: seq<Row>)
    ensures ps <= ParentsAfter(ps, rows)
  {
    if rows != [] {
      ParentsAfterKeeps(ps, rows[..|rows| - 1]);
    }
  }

  /** Every non-blank parent name of the rows ends up in the table. */
  lemma {:induction false} ParentsAfterHasRows(ps: seq<string>, rows: seq<Row>)
    ensures forall i :: 0 <= i < |rows| && rows[i].parent != "" ==> rows[i].parent in ParentsAfter(ps, rows)
  {
    if rows != [] {
      var init := rows[..|rows| - 1];
      ParentsAfterHasRows(ps, init);
      assert forall i :: 0 <= i < |init| ==> init[i] == rows[i];
    }
  }

  /** The table gains no name other than the rows' parent names. */
  lemma {:induction false} ParentsAfterOnlyRows(ps: seq<string>, rows: seq<Row>, name: string)
    requires name in ParentsAfter(ps, rows) && name !in ps
    ensures exists i :: 0 <= i < |rows| && rows[i].parent == name
  {
    var init := rows[..|rows| - 1];
    if name in ParentsAfter(ps, init) {
      ParentsAfterOnlyRows(ps, init, name);
      var i :| 0 <= i < |init| && init[i].parent == name;
      assert init[i] == rows[i];
    }
  }

  /** A table without repeated names gets none from the import: firstOrCreate finds a name before it creates it. */
  lemma {:induction false} ParentsAfterNoDuplicates(ps: seq<string>, rows: seq<Row>)
    requires NoDuplicates(ps)
    ensures NoDuplicates(ParentsAfter(ps, rows))
  {
    if rows != [] {
      ParentsAfterNoDuplicates(ps, rows[..|rows| - 1]);
    }
  }

  /** Rows whose parent names are all in the table already add no parent. */
  lemma {:induction false} ParentsAfterKnown(qs: seq<string>, rows: seq<Row>)
    requires forall i :: 0 <= i < |rows| && rows[i].parent != "" ==> rows[i].parent in qs
    ensures ParentsAfter(qs, rows) == qs
  {
    if rows != [] {
      var init := rows[..|rows| - 1];
      assert forall i :: 0 <= i < |init| ==> init[i] == rows[i];
      ParentsAfterKnown(qs, init);
    }
  }

  /** Importing the same rows a second time adds no parent (their children are created again). */
  lemma ReimportAddsNoParents(ps: seq<string>, rows: seq<Row>)
    ensures ParentsAfter(ParentsAfter(ps, rows), rows) == ParentsAfter(ps, rows)
  {
    ParentsAfterHasRows(ps, rows);
    ParentsAfterKnown(ParentsAfter(ps, rows), rows);
  }

  /** Rows before the first non-blank parent name create no child. */
  lemma {:induction false} NoChildBeforeParent(rows: seq<Row>)
    requires LastParent(rows).None?
    ensures Created(rows) == []
  {
    if rows != [] {
      NoChildBeforeParent(rows[..|rows| - 1]);
    }
  }

  /** Every created child has a non-blank name and a non-blank parent that is in the parent table. */
  lemma {:induction false} CreatedUnderKnownParents(ps: seq<string>, rows: seq<Row>)
    ensures forall pair :: pair in Created(rows) ==> pair.0 != "" && pair.1 != "" && pair.0 in ParentsAfter(ps, rows)
  {
    if rows != [] {
      var init, row := rows[..|rows| - 1], rows[|rows| - 1];
      CreatedUnderKnownParents(ps, init);
      assert rows == init + [row];
      AppendRow(ps, init, row);
      var current := LastParent(rows);
      if current.Some? {
        LastParentIsRow(rows);
        ParentsAfterHasRows(ps, rows);
      }
    }
  }

  /** A row with a blank parent name adds its child under the parent carried forward from the rows before it. */
  lemma CarriedForward(rows: seq<Row>, child: string)
    requires child != "" && LastParent(rows).Some?
    ensures Created(rows + [Row("", child)]) == Created(rows) + [(LastParent(rows).value, child)]
  {
    AppendRow([], rows, Row("", child));
  }

  /** Children are not de-duplicated: the same row twice creates its child twice. */
  lemma RepeatedRowRepeatsChild(rows: seq<Row>, row: Row)
    requires row.parent != "" && row.child != ""
    ensures Created(rows + [row, row]) == Created(rows) + [(row.parent, row.child), (row.parent, row.child)]
  {
    AppendRow([], rows, row);
    AppendRow([], rows + [row], row);
    assert rows + [row, row] == (rows + [row]) + [row];
  }

  /** The two tables a seeder fills: the parents (zonings or barangays) and their children. */
  class Tables {
    var parents: seq<string>
    var children: seq<Child>

    constructor (parents: seq<string>, children: seq<Child>)
      ensures this.parents == parents && this.children == children
    {
      this.parents := parents;
      this.children := children;
    }

    /** firstOrCreate by name: the id of the first parent with that name, added when there is none. */
    method FirstOrCreate(name: string) returns (id: nat)
      modifies this
      ensures parents == if name in old(parents) then old(parents) else old(parents) + [name]
      ensures id < |parents| && parents[id] == name
      ensures children == old(children)
    {
      id := IndexOf(parents, name);
      if id == |parents| {
        parents := parents + [name];
      }
    }

    /** create: adds one child under the given parent. */
    method CreateChild(parentId: nat, name: string)
      modifies this
      ensures children == old(children) + [Child(parentId, name)]
      ensures parents == old(parents)
    {
      children := children + [Child(parentId, name)];
    }

    /** One row: a non-blank parent name becomes current (found or created), then a non-blank child name is created under it. */
    method ImportRow(row: Row, current: Option<nat>) returns (next: Option<nat>)
      requires current.Some? ==> current.value < |parents|
      modifies this
      ensures RowEffect(row, old(parents), old(children), current, parents, children, next)
    {
      next := current;
      if row.parent != "" {
        var id := FirstOrCreate(row.parent);
        next := Some(id);
      }
      if row.child != "" && next.Some? {
        CreateChild(next.value, row.child);
      }
    }

    /**
     * The seeder's run: nothing happens without a file; otherwise the rows are
     * read and imported in order with the carried-forward current parent.
     */
    method Import(file: Option<seq<map<string, string>>>, parentKey: string, childKey: string)
      modifies this
      ensures file.None? ==> parents == old(parents) && children == old(children)
      ensures file.Some? ==> parents == ParentsAfter(old(parents), ReadRows(file.value, parentKey, childKey))
      ensures file.Some? ==> old(children) <= children
      ensures file.Some? ==> AddedAre(parents, children, |old(children)|, Created(ReadRows(file.value, parentKey, childKey)))
    {
      if file.None? {
        return;
      }
      var items := file.value;
      ghost var rows := ReadRows(items, parentKey, childKey);
      ghost var ps0, cs0 := parents, children;
      var current: Option<nat> := None;
      var i := 0;
      while i < |items|
        invariant 0 <= i <= |items|
        invariant Imported(ps0, cs0, rows[..i], parents, children, current)
      {
        var row := ReadRow(items[i], parentKey, childKey);
        assert row == rows[i];
        ghost var ps, cs := parents, children;
        var next := ImportRow(row, current);
        ImportedStep(ps0, cs0, rows, i, ps, cs, current, parents, children, next);
        current := next;
        i := i + 1;
      }
      assert rows[..i] == rows;
    }
  }
}
