/** Source-transition deltas of a publication binding, and their reversal. */
module Deltas {
  import opened Common

  type Digest = string
  type Digests = map<string, Digest>

  /** What stands for a missing entry in a delta row. */
  const ABSENT := "absent"

  datatype Row = Row(before: Digest, after: Digest)

  function Got(values: Digests, key: string): Digest {
    if key in values then values[key] else ABSENT
  }

  predicate SameAt(a: Digests, b: Digests, key: string) {
    (key in a <==> key in b) && (key in a ==> a[key] == b[key])
  }

  // ---- One mapping ------------------------------------------------------------------------------

  /** `_mapping_delta`: the entries that differ, a missing side written as absent. */
  function MappingDelta(prior: Digests, current: Digests): map<string, Row> {
    map key | key in prior.Keys + current.Keys && !SameAt(prior, current, key) :: Row(Got(prior, key), Got(current, key))
  }

  /** Every row starts from what the mapping holds. */
  predicate Fits(values: Digests, rows: map<string, Row>) {
    forall key :: key in rows ==> Got(values, key) == rows[key].after
  }

  /** The mapping with the rows undone; a row from absent removes its key. */
  function Undone(values: Digests, rows: map<string, Row>): Digests {
    map key | key in values.Keys + rows.Keys && (key in rows ==> rows[key].before != ABSENT) ::
      if key in rows then rows[key].before else values[key]
  }

  /** The copy once the rows in `done` are undone. */
  function Partly(values: Digests, rows: map<string, Row>, done: set<string>): Digests
    requires done <= rows.Keys
  {
    map key | key in values.Keys + done && (key in done ==> rows[key].before != ABSENT) ::
      if key in done then rows[key].before else values[key]
  }

  lemma PartlyMore(values: Digests, rows: map<string, Row>, done: set<string>, key: string)
    requires done <= rows.Keys && key in rows && key !in done
    ensures Got(Partly(values, rows, done), key) == Got(values, key)
    ensures Partly(values, rows, done + {key})
         == if rows[key].before == ABSENT then Partly(values, rows, done) - {key} else Partly(values, rows, done)[key := rows[key].before]
  {
  }

  lemma MoveKey<K>(all: set<K>, todo: set<K>, key: K)
    requires todo <= all && key in todo
    ensures all - (todo - {key}) == (all - todo) + {key}
  {
  }

  lemma PartlyEnds(values: Digests, rows: map<string, Row>)
    ensures Partly(values, rows, {}) == values
    ensures Partly(values, rows, rows.Keys) == Undone(values, rows)
  {
  }

  /** `reverse`, row by row on a copy. */
  method Reverse(values: Digests, rows: map<string, Row>) returns (restored: Option<Digests>)
    ensures restored == if Fits(values, rows) then Some(Undone(values, rows)) else None
  {
    var copy, todo := values, rows.Keys;
    PartlyEnds(values, rows);
    assert rows.Keys - todo == {};
    while todo != {}
      invariant todo <= rows.Keys
      invariant forall key :: key in rows && key !in todo ==> Got(values, key) == rows[key].after
      invariant copy == Partly(values, rows, rows.Keys - todo)
      decreases |todo|
    {
      var key :| key in todo;
      PartlyMore(values, rows, rows.Keys - todo, key);
      MoveKey(rows.Keys, todo, key);
      if Got(copy, key) != rows[key].after { return None; }
      copy := if rows[key].before == ABSENT then copy - {key} else copy[key := rows[key].before];
      todo := todo - {key};
    }
    assert rows.Keys - {} == rows.Keys;
    restored := Some(copy);
  }

  /** The one thing a delta cannot express: a digest that reads like a missing entry. */
  predicate Expressible(prior: Digests, current: Digests) {
    forall key :: key in prior && prior[key] == ABSENT ==> key in current && current[key] == ABSENT
  }

  /** Undoing a delta is always accepted, and gives the prior mapping back exactly unless some entry
      whose prior digest is the word for a missing entry has changed. */
  lemma ReverseOfDelta(prior: Digests, current: Digests)
    ensures Fits(current, MappingDelta(prior, current))
    ensures Undone(current, MappingDelta(prior, current)) == prior <==> Expressible(prior, current)
  {
    var undone := Undone(current, MappingDelta(prior, current));
    forall key
      ensures SameAt(undone, prior, key) <==> (key in prior && prior[key] == ABSENT ==> key in current && current[key] == ABSENT)
    {
    }
    if Expressible(prior, current) {
      forall key
        ensures SameAt(undone, prior, key)
      {
      }
      assert undone.Keys == prior.Keys by {
        forall key
          ensures key in undone <==> key in prior
        {
          assert SameAt(undone, prior, key);
        }
      }
    }
    if undone == prior {
      forall key | key in prior && prior[key] == ABSENT
        ensures key in current && current[key] == ABSENT
      {
        assert SameAt(undone, prior, key);
      }
    }
  }

  // ---- Whole bindings ---------------------------------------------------------------------------

  /** A publication binding; `tree` is the recorded digest of the source files, `rest` its other fields. */
  datatype Binding = Binding(generator: Digest, files: Digests, tree: Digest, sources: Digests, cellIds: seq<string>, cells: Digests, rest: string)

  datatype Transition = Transition(generator: Row, files: map<string, Row>, sources: map<string, Row>,
                                   cellsBefore: seq<string>, cellsAfter: seq<string>, cells: map<string, Row>, prior: Digest)

  /** The digests of a file table and of a whole binding. */
  datatype Seals = Seals(files: Digests -> Digest, binding: Binding -> Digest)

  ghost predicate Injective(seals: Seals) {
    forall a, b :: seals.binding(a) == seals.binding(b) ==> a == b
  }

  function TransitionDeltas(prior: Binding, current: Binding, seals: Seals): Transition {
    Transition(Row(prior.generator, current.generator), MappingDelta(prior.files, current.files),
      MappingDelta(prior.sources, current.sources), prior.cellIds, current.cellIds,
      MappingDelta(prior.cells, current.cells), seals.binding(prior))
  }

  /** The binding a reversal arrives at before it is checked against the recorded digest. */
  function Recovered(current: Binding, t: Transition, seals: Seals): Binding {
    var files := Undone(current.files, t.files);
    Binding(t.generator.before, files, seals.files(files), Undone(current.sources, t.sources), t.cellsBefore,
      Undone(current.cells, t.cells), current.rest)
  }

  predicate Accepts(current: Binding, t: Transition, seals: Seals) {
    && current.generator == t.generator.after && Fits(current.files, t.files) && Fits(current.sources, t.sources)
    && current.cellIds == t.cellsAfter && Fits(current.cells, t.cells)
    && seals.binding(Recovered(current, t, seals)) == t.prior
  }

  /** `_prior_binding_from_transition`: one delta after another, then the check of the whole. */
  method PriorBinding(current: Binding, t: Transition, seals: Seals) returns (prior: Option<Binding>)
    ensures prior == if Accepts(current, t, seals) then Some(Recovered(current, t, seals)) else None
  {
    if current.generator != t.generator.after { return None; }
    var files := Reverse(current.files, t.files);
    if files.None? { return None; }
    var sources := Reverse(current.sources, t.sources);
    if sources.None? { return None; }
    if current.cellIds != t.cellsAfter { return None; }
    var cells := Reverse(current.cells, t.cells);
    if cells.None? { return None; }
    var recovered := Binding(t.generator.before, files.value, seals.files(files.value), sources.value, t.cellsBefore, cells.value, current.rest);
    if seals.binding(recovered) != t.prior { return None; }
    prior := Some(recovered);
  }

  /** What a reversal needs of the two bindings: the same other fields, a prior whose recorded tree
      digest is its files', and no changed entry that reads like a missing one. */
  predicate Reversible(prior: Binding, current: Binding, seals: Seals) {
    && prior.rest == current.rest && prior.tree == seals.files(prior.files)
    && Expressible(prior.files, current.files) && Expressible(prior.sources, current.sources) && Expressible(prior.cells, current.cells)
  }

  /** Reversing a transition's own deltas is accepted exactly for reversible bindings, and what is
      accepted is the prior binding, added and removed keys included. */
  lemma TransitionReverses(prior: Binding, current: Binding, seals: Seals)
    requires Injective(seals)
    ensures var t := TransitionDeltas(prior, current, seals);
      && (Accepts(current, t, seals) <==> Reversible(prior, current, seals))
      && (Accepts(current, t, seals) ==> Recovered(current, t, seals) == prior)
  {
    ReverseOfDelta(prior.files, current.files);
    ReverseOfDelta(prior.sources, current.sources);
    ReverseOfDelta(prior.cells, current.cells);
  }

  /** A file whose prior digest is the word itself disappears in the reversal. */
  lemma AbsentDigestLost(key: string, digest: Digest)
    requires digest != ABSENT
    ensures Fits(map[key := digest], MappingDelta(map[key := ABSENT], map[key := digest]))
    ensures key !in Undone(map[key := digest], MappingDelta(map[key := ABSENT], map[key := digest]))
  {
    var prior: Digests, current: Digests := map[key := ABSENT], map[key := digest];
    assert !SameAt(prior, current, key);
  }
}
