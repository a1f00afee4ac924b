/**
 Reader-writer locks as data. A lock records who holds it; `Matches` ties that record to
 the operations in flight, given which of them hold the lock and which of them hold it
 exclusively.
 */
module Locks {
  import opened Wrappers

  type OpId = nat

  datatype Lock = Lock(writer: Option<OpId>, readers: set<OpId>)

  const Free: Lock := Lock(None, {})

  predicate CanTake(l: Lock, exclusive: bool) {
    l.writer.None? && (exclusive ==> l.readers == {})
  }

  function Take(l: Lock, o: OpId, exclusive: bool): Lock {
    if exclusive then Lock(Some(o), l.readers) else Lock(l.writer, l.readers + {o})
  }

  function Drop(l: Lock, o: OpId, exclusive: bool): Lock {
    if exclusive then Lock(None, l.readers) else Lock(l.writer, l.readers - {o})
  }

  ghost predicate Matches<Op>(l: Lock, ops: map<OpId, Op>, holds: Op -> bool, exclusive: Op -> bool) {
    && (forall o :: l.writer == Some(o) <==> o in ops && holds(ops[o]) && exclusive(ops[o]))
    && (forall o :: o in l.readers <==> o in ops && holds(ops[o]) && !exclusive(ops[o]))
    && (l.writer.Some? ==> l.readers == {})
  }

  lemma Taken<Op>(l: Lock, ops: map<OpId, Op>, holds: Op -> bool, exclusive: Op -> bool, o: OpId, op': Op)
    requires Matches(l, ops, holds, exclusive) && o in ops
    requires !holds(ops[o]) && holds(op') && (exclusive(op') <==> exclusive(ops[o])) && CanTake(l, exclusive(op'))
    ensures Matches(Take(l, o, exclusive(op')), ops[o := op'], holds, exclusive)
  {
  }

  lemma Dropped<Op>(l: Lock, ops: map<OpId, Op>, holds: Op -> bool, exclusive: Op -> bool, o: OpId, op': Op)
    requires Matches(l, ops, holds, exclusive) && o in ops
    requires holds(ops[o]) && !holds(op')
    ensures Matches(Drop(l, o, exclusive(ops[o])), ops[o := op'], holds, exclusive)
  {
  }

  lemma Kept<Op>(l: Lock, ops: map<OpId, Op>, holds: Op -> bool, exclusive: Op -> bool, o: OpId, op': Op)
    requires Matches(l, ops, holds, exclusive) && o in ops
    requires holds(ops[o]) <==> holds(op')
    requires holds(op') ==> (exclusive(op') <==> exclusive(ops[o]))
    ensures Matches(l, ops[o := op'], holds, exclusive)
  {
  }

  lemma Joined<Op>(l: Lock, ops: map<OpId, Op>, holds: Op -> bool, exclusive: Op -> bool, o: OpId, op': Op)
    requires Matches(l, ops, holds, exclusive) && o !in ops && !holds(op')
    ensures Matches(l, ops[o := op'], holds, exclusive) && l.writer != Some(o)
  {
  }

  lemma NobodyHolds<Op>(l: Lock, ops: map<OpId, Op>, holds: Op -> bool, exclusive: Op -> bool)
    requires Matches(l, ops, holds, exclusive)
    requires forall o :: o in ops ==> !holds(ops[o])
    ensures l == Free
  {
    assert forall o :: l.writer != Some(o);
    assert l.readers == {};
  }
}
