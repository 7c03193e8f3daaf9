/**
 A server package as a flat queue of entries: src/acs/protocol/omadm/package.py. How entries are
 stored between requests, and how they become SyncML commands.
 */
module Package {
  import opened Wrappers
  import opened Xml
  import B = SyncMlBuilder

  const MAX_ACKNOWLEDGED_COMMANDS: nat := 100
  const MAX_MESSAGES_PER_PACKAGE: nat := 128
  const MAX_STORED_BYTES: nat := 32 * 1024

  datatype Entry =
    | Status(cmd: string, msgRef: string, cmdRef: string, code: string, targetRef: string)
    | Item(command: string, uri: string, data: string, format: string, type_: string)

  // ---- stored form ----

  function ToRow(e: Entry): seq<string> {
    match e
    case Status(cmd, msgRef, cmdRef, code, targetRef) => ["Status", cmd, msgRef, cmdRef, code, targetRef]
    case Item(command, uri, data, format, type_) => [command, uri, data, format, type_]
  }

  function At(row: seq<string>, i: nat): string {
    if i < |row| then row[i] else ""
  }

  /** Status(*row[1:]) or Item(*row); a field a row lacks has its default, the empty string. */
  function FromRow(row: seq<string>): Entry {
    if At(row, 0) == "Status" then Status(At(row, 1), At(row, 2), At(row, 3), At(row, 4), At(row, 5))
    else Item(At(row, 0), At(row, 1), At(row, 2), At(row, 3), At(row, 4))
  }

  function ToRows(es: seq<Entry>): (rows: seq<seq<string>>)
    ensures |rows| == |es|
  {
    seq(|es|, i requires 0 <= i < |es| => ToRow(es[i]))
  }

  function FromStored(rows: seq<seq<string>>): (es: seq<Entry>)
    ensures |es| == |rows|
  {
    seq(|rows|, i requires 0 <= i < |rows| => FromRow(rows[i]))
  }

  /** to_stored: the rows, or the size that is over the budget; jsonSize measures compact JSON. */
  function ToStored(es: seq<Entry>, jsonSize: seq<seq<string>> -> nat): Result<seq<seq<string>>, nat> {
    var size := jsonSize(ToRows(es));
    if size > MAX_STORED_BYTES then Err(size) else Ok(ToRows(es))
  }

  /** An entry the stored form can tell apart: no item poses as a status. */
  predicate Storable(e: Entry) {
    e.Item? ==> e.command != "Status"
  }

  /** Storing is undone by reading, exactly for queues in which no item command is named Status. */
  lemma StoredRoundTrip(es: seq<Entry>)
    ensures FromStored(ToRows(es)) == es <==> forall i :: 0 <= i < |es| ==> Storable(es[i])
  {
    forall i | 0 <= i < |es|
      ensures FromRow(ToRow(es[i])) == es[i] <==> Storable(es[i])
    {
    }
    if FromStored(ToRows(es)) == es {
      forall i | 0 <= i < |es|
        ensures Storable(es[i])
      {
        assert FromStored(ToRows(es))[i] == FromRow(ToRow(es[i]));
      }
    }
  }

  // ---- entries as commands ----

  /** What travels as one command: a status alone, adjacent items of one command together. */
  datatype Group = StatusGroup(status: Entry) | ItemGroup(command: string, values: seq<B.Value>)

  predicate Known(e: Entry) {
    e.Item? ==> e.command in {"Get", "Add", "Replace"}
  }

  predicate AllKnown(es: seq<Entry>) {
    forall i :: 0 <= i < |es| ==> Known(es[i])
  }

  function ValueOf(e: Entry): B.Value
    requires e.Item?
  {
    B.Value(e.uri, e.data, e.format, e.type_)
  }

  /** The groups after one more entry. */
  function Extend(gs: seq<Group>, e: Entry): seq<Group> {
    var last := |gs| - 1;
    if e.Status? then gs + [StatusGroup(e)]
    else if gs != [] && gs[last].ItemGroup? && gs[last].command == e.command
    then gs[..last] + [ItemGroup(e.command, gs[last].values + [ValueOf(e)])]
    else gs + [ItemGroup(e.command, [ValueOf(e)])]
  }

  function Groups(es: seq<Entry>): (gs: seq<Group>)
    ensures |gs| <= |es|
    ensures es != [] ==> gs != []
  {
    if es == [] then [] else Extend(Groups(es[..|es| - 1]), es[|es| - 1])
  }

  function EntriesOf(g: Group): seq<Entry> {
    match g
    case StatusGroup(s) => [s]
    case ItemGroup(command, values) =>
      seq(|values|, i requires 0 <= i < |values| =>
        Item(command, values[i].uri, values[i].data, values[i].format, values[i].type_))
  }

  function Flatten(gs: seq<Group>): seq<Entry> {
    if gs == [] then [] else Flatten(gs[..|gs| - 1]) + EntriesOf(gs[|gs| - 1])
  }

  lemma GroupsSnoc(es: seq<Entry>, e: Entry)
    ensures Groups(es + [e]) == Extend(Groups(es), e)
  {
    hide Extend;
    assert (es + [e])[..|es|] == es;
  }

  /** Grouping neither loses, repeats nor reorders an entry. */
  lemma {:induction false} GroupsFlatten(es: seq<Entry>)
    ensures Flatten(Groups(es)) == es
  {
    if es != [] {
      var before, e := es[..|es| - 1], es[|es| - 1];
      assert before + [e] == es;
      GroupsSnoc(before, e);
      GroupsFlatten(before);
      hide Groups;
      ExtendFlatten(Groups(before), e);
    }
  }

  lemma ExtendFlatten(gs: seq<Group>, e: Entry)
    ensures Flatten(Extend(gs, e)) == Flatten(gs) + [e]
  {
    var r := Extend(gs, e);
    var last := |gs| - 1;
    if |r| == |gs| {
      assert r[..last] == gs[..last];
      assert EntriesOf(r[last]) == EntriesOf(gs[last]) + [e];
    } else {
      assert r[..|gs|] == gs;
      assert EntriesOf(r[|gs|]) == [e];
    }
  }

  /** Adjacent commands with items never share a name, and none is empty: each run is as long as it can be. */
  ghost predicate Maximal(gs: seq<Group>) {
    && (forall i, j :: 0 <= i < j == i + 1 < |gs| && gs[i].ItemGroup? && gs[j].ItemGroup? ==>
         gs[i].command != gs[j].command)
    && (forall i :: 0 <= i < |gs| && gs[i].ItemGroup? ==> gs[i].values != [])
  }

  lemma {:induction false} GroupsAreMaximal(es: seq<Entry>)
    ensures Maximal(Groups(es))
  {
    if es != [] {
      var before, e := es[..|es| - 1], es[|es| - 1];
      assert before + [e] == es;
      GroupsSnoc(before, e);
      GroupsAreMaximal(before);
      hide Groups;
      ExtendIsMaximal(Groups(before), e);
    }
  }

  lemma ExtendIsMaximal(gs: seq<Group>, e: Entry)
    requires Maximal(gs)
    ensures Maximal(Extend(gs, e))
  {
  }

  function CommandOf(g: Group, id: nat): Xml {
    match g
    case StatusGroup(s) =>
      if s.Status? then B.StatusElement(id, s.cmd, s.msgRef, s.cmdRef, s.code, s.targetRef, None)
      else B.ItemsElement(id, s.command, [ValueOf(s)])
    case ItemGroup(command, values) => B.ItemsElement(id, command, values)
  }

  /** The commands that follow the SyncHdr status, with ids from firstId. */
  function CommandsOf(gs: seq<Group>, firstId: nat): (r: seq<Xml>)
    ensures |r| == |gs|
    ensures forall i :: 0 <= i < |gs| ==> r[i] == CommandOf(gs[i], firstId + i)
  {
    seq(|gs|, i requires 0 <= i < |gs| => CommandOf(gs[i], firstId + i))
  }

  // ---- apply as the source runs it ----

  /** The leading items of one command. */
  function Run(es: seq<Entry>, command: string): (n: nat)
    ensures n <= |es|
    ensures forall i :: 0 <= i < n ==> es[i].Item? && es[i].command == command
    ensures n < |es| ==> es[n].Status? || es[n].command != command
  {
    if es == [] || es[0].Status? || es[0].command != command then 0 else 1 + Run(es[1..], command)
  }

  function Values(es: seq<Entry>): (vs: seq<B.Value>)
    requires forall i :: 0 <= i < |es| ==> es[i].Item?
    ensures |vs| == |es|
    ensures forall i :: 0 <= i < |es| ==> vs[i] == ValueOf(es[i])
  {
    seq(|es|, i requires 0 <= i < |es| => ValueOf(es[i]))
  }

  /** The last group is not one that `command` could extend. */
  predicate Closed(gs: seq<Group>, command: string) {
    gs != [] ==> gs[|gs| - 1].StatusGroup? || gs[|gs| - 1].command != command
  }

  /** Appending a run of items of one command, where the last group is of another, adds one group. */
  lemma {:induction false} GroupsOfRun(before: seq<Entry>, run: seq<Entry>, command: string)
    requires run != [] && forall i :: 0 <= i < |run| ==> run[i].Item? && run[i].command == command
    requires Closed(Groups(before), command)
    ensures Groups(before + run) == Groups(before) + [ItemGroup(command, Values(run))]
  {
    hide Groups;
    var last := |run| - 1;
    var e := run[last];
    assert before + run == before + run[..last] + [e];
    GroupsSnoc(before + run[..last], e);
    if last == 0 {
      assert before + run[..last] == before;
      assert Values(run) == [ValueOf(e)];
    } else {
      GroupsOfRun(before, run[..last], command);
      var gs := Groups(before);
      assert (gs + [ItemGroup(command, Values(run[..last]))])[..|gs|] == gs;
      assert Values(run[..last]) + [ValueOf(e)] == Values(run);
    }
  }

  /** The items gathered from an entry on: `for following in entries[index:]` up to its break. */
  function RunAt(es: seq<Entry>, index: nat): (run: seq<Entry>)
    requires index < |es| && es[index].Item?
    ensures 0 < |run| <= |es| - index
    ensures forall i :: 0 <= i < |run| ==> run[i].Item? && run[i].command == es[index].command
  {
    es[index..][..Run(es[index..], es[index].command)]
  }

  lemma RunAtAddsGroup(es: seq<Entry>, index: nat)
    requires index < |es| && es[index].Item?
    requires Closed(Groups(es[..index]), es[index].command)
    ensures var run := RunAt(es, index);
            var g := ItemGroup(es[index].command, Values(run));
            && Groups(es[..index + |run|]) == Groups(es[..index]) + [g]
            && (index + |run| < |es| && es[index + |run|].Item? ==> es[index + |run|].command != es[index].command)
  {
    hide Groups;
    var run := RunAt(es, index);
    assert es[..index] + run == es[..index + |run|];
    GroupsOfRun(es[..index], run, es[index].command);
    if index + |run| < |es| { assert es[index + |run|] == es[index..][|run|]; }
  }

  lemma StatusAddsGroup(es: seq<Entry>, index: nat)
    requires index < |es| && es[index].Status?
    ensures Groups(es[..index + 1]) == Groups(es[..index]) + [StatusGroup(es[index])]
  {
    assert es[..index + 1] == es[..index] + [es[index]];
    GroupsSnoc(es[..index], es[index]);
  }

  /** apply; false where it raises ValueError for a command it does not know. */
  method Apply(builder: B.Builder, es: seq<Entry>) returns (ok: bool)
    requires builder.Valid()
    modifies builder
    ensures ok <==> AllKnown(es)
    ensures builder.Valid()
    ensures ok ==> builder.commands == old(builder.commands) + CommandsOf(Groups(es), |old(builder.commands)| + 1)
  {
    hide Groups;
    hide CommandOf;
    hide CommandsOf;
    hide Values;
    hide RunAt;
    var index := 0;
    ghost var base, first := builder.commands, |builder.commands| + 1;
    ghost var gs: seq<Group> := [];
    NothingYet(base, first);
    assert es[..0] == [];
    while index < |es|
      invariant 0 <= index <= |es| && builder.Valid()
      invariant forall i :: 0 <= i < index ==> Known(es[i])
      invariant gs == Groups(es[..index])
      invariant builder.commands == base + CommandsOf(gs, first)
      invariant index < |es| && es[index].Item? ==> Closed(gs, es[index].command)
    {
      var entry := es[index];
      ghost var g: Group;
      if entry.Status? {
        StatusAddsGroup(es, index);
        g := StatusGroup(entry);
        builder.Status(entry.cmd, entry.msgRef, entry.cmdRef, entry.code, entry.targetRef, None);
        index := index + 1;
      } else {
        var group := RunAt(es, index);
        if entry.command != "Get" && entry.command != "Add" && entry.command != "Replace" {
          assert !Known(entry);
          return false;
        }
        RunAtAddsGroup(es, index);
        KnownRun(es, index, |group|);
        g := ItemGroup(entry.command, Values(group));
        assert Values(group) != [] by { assert |Values(group)| == |group|; }
        builder.Items(entry.command, Values(group));
        index := index + |group|;
      }
      OneMoreElement(base, gs, g, first);
      gs := gs + [g];
    }
    assert es[..index] == es;
    ok := true;
  }

  lemma KnownRun(es: seq<Entry>, index: nat, n: nat)
    requires index < |es| && es[index].Item? && n == |RunAt(es, index)| && Known(es[index])
    ensures forall i :: index <= i < index + n ==> Known(es[i])
  {
    forall i | index <= i < index + n
      ensures Known(es[i])
    {
      assert es[i] == RunAt(es, index)[i - index];
    }
  }

  lemma NothingYet(base: seq<Xml>, first: nat)
    ensures Groups([]) == [] && base + CommandsOf([], first) == base
  {
  }

  /** The group's element is the one the builder appends, with the next id. */
  lemma OneMoreElement(base: seq<Xml>, gs: seq<Group>, g: Group, first: nat)
    ensures |CommandsOf(gs, first)| == |gs|
    ensures base + CommandsOf(gs + [g], first) == base + CommandsOf(gs, first) + [CommandOf(g, first + |gs|)]
    ensures g.StatusGroup? && g.status.Status? ==>
              var s := g.status;
              CommandOf(g, first + |gs|)
                  == B.StatusElement(first + |gs|, s.cmd, s.msgRef, s.cmdRef, s.code, s.targetRef, None)
    ensures g.ItemGroup? ==> CommandOf(g, first + |gs|) == B.ItemsElement(first + |gs|, g.command, g.values)
  {
    assert CommandsOf(gs + [g], first) == CommandsOf(gs, first) + [CommandOf(g, first + |gs|)];
  }
}
