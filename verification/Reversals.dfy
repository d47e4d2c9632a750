/** Deltas, entry by entry. */
module Reversals {
  // What a source transition records, and what undoing it gives.

  import opened Common
  import opened Deltas

  /** The word written for a missing entry. */
  predicate Written(values: Digests, key: string, word: Digest) {
    if key in values then word == values[key] else word == "absent"
  }

  /** A delta has a row for exactly the keys that were added, removed or changed, from what was to what is. */
  predicate DeltaSays(prior: Digests, current: Digests, rows: map<string, Row>) {
    && (forall key :: key in rows ==> Written(prior, key, rows[key].before) && Written(current, key, rows[key].after))
    && (forall key :: key in rows ==> key !in prior || key !in current || prior[key] != current[key])
    && (forall key :: key in prior && key !in current ==> key in rows)
    && (forall key :: key in current && key !in prior ==> key in rows)
    && (forall key :: key in prior && key in current && prior[key] != current[key] ==> key in rows)
    && (forall key :: key in rows ==> key in prior || key in current)
  }

  lemma DeltaIs(prior: Digests, current: Digests)
    ensures DeltaSays(prior, current, MappingDelta(prior, current))
  {
  }

  /** The rows undone: a row's key gets back what it was, or goes if it was missing; every other entry stays. */
  ghost predicate UndoneSays(values: Digests, rows: map<string, Row>, before: Digests) {
    && (forall key :: key in rows ==> (key in before <==> rows[key].before != "absent"))
    && (forall key :: key in rows && key in before ==> before[key] == rows[key].before)
    && (forall key :: key !in rows ==> (key in before <==> key in values))
    && (forall key :: key !in rows && key in before ==> before[key] == values[key])
  }

  predicate Starts(values: Digests, rows: map<string, Row>) {
    forall key :: key in rows ==> Written(values, key, rows[key].after)
  }

  lemma UndoneIs(values: Digests, rows: map<string, Row>)
    ensures UndoneSays(values, rows, Undone(values, rows))
    ensures Starts(values, rows) <==> Fits(values, rows)
  {
  }

  /** The recorded transition: both generators, both cell lists, the three deltas and the seal of the prior binding. */
  predicate TransitionSays(prior: Binding, current: Binding, seals: Seals, t: Transition) {
    && t.generator.before == prior.generator && t.generator.after == current.generator
    && t.cellsBefore == prior.cellIds && t.cellsAfter == current.cellIds && t.prior == seals.binding(prior)
    && DeltaSays(prior.files, current.files, t.files) && DeltaSays(prior.sources, current.sources, t.sources)
    && DeltaSays(prior.cells, current.cells, t.cells)
  }

  lemma TransitionIs(prior: Binding, current: Binding, seals: Seals)
    ensures TransitionSays(prior, current, seals, TransitionDeltas(prior, current, seals))
  {
    DeltaIs(prior.files, current.files);
    DeltaIs(prior.sources, current.sources);
    DeltaIs(prior.cells, current.cells);
  }

  /** A binding the transition leads back to: every delta starts from the current binding and is undone, the tree is
      sealed anew, and the whole has the recorded seal. */
  ghost predicate LeadsBack(current: Binding, t: Transition, seals: Seals, prior: Binding) {
    && current.generator == t.generator.after && prior.generator == t.generator.before
    && current.cellIds == t.cellsAfter && prior.cellIds == t.cellsBefore
    && Starts(current.files, t.files) && UndoneSays(current.files, t.files, prior.files)
    && Starts(current.sources, t.sources) && UndoneSays(current.sources, t.sources, prior.sources)
    && Starts(current.cells, t.cells) && UndoneSays(current.cells, t.cells, prior.cells)
    && prior.tree == seals.files(prior.files) && prior.rest == current.rest && seals.binding(prior) == t.prior
  }

  lemma UndoneOnce(values: Digests, rows: map<string, Row>, a: Digests, b: Digests)
    requires UndoneSays(values, rows, a) && UndoneSays(values, rows, b)
    ensures a == b
  {
    assert forall key :: key in a <==> key in b;
  }

  /** The reversal returns the one binding the transition leads back to, and refuses if there is none. */
  method ReadBack(current: Binding, t: Transition, seals: Seals) returns (prior: Option<Binding>)
    ensures forall binding :: prior == Some(binding) <==> LeadsBack(current, t, seals, binding)
  {
    prior := PriorBinding(current, t, seals);
    forall binding ensures prior == Some(binding) <==> LeadsBack(current, t, seals, binding) {
      BackOrNot(current, t, seals, binding);
    }
  }

  lemma BackOrNot(current: Binding, t: Transition, seals: Seals, binding: Binding)
    ensures LeadsBack(current, t, seals, binding) <==> Accepts(current, t, seals) && binding == Recovered(current, t, seals)
  {
    UndoneIs(current.files, t.files);
    UndoneIs(current.sources, t.sources);
    UndoneIs(current.cells, t.cells);
    if LeadsBack(current, t, seals, binding) {
      UndoneOnce(current.files, t.files, binding.files, Undone(current.files, t.files));
      UndoneOnce(current.sources, t.sources, binding.sources, Undone(current.sources, t.sources));
      UndoneOnce(current.cells, t.cells, binding.cells, Undone(current.cells, t.cells));
    }
  }
}
