/** Conflict-free documents as sets of operations, state vectors, and the byte strings that carry them.
    The Yjs encoding itself (github.com/reearth/ygo) is not part of the repository. */
module Documents {

  /** The `clock`-th operation made by the editor `client`. */
  datatype Op = Op(client: nat, clock: nat)

  type Doc = set<Op>

  /** For each editor, how many of its first operations are known; absent editors count as 0. */
  type StateVector = map<nat, nat>

  /** A byte string seen through the decoder it is meant for. */
  datatype Bytes<+T> = Nil | Blank | Garbage | Coded(content: T)

  /** No bytes at all, whether the slice is nil or not. */
  predicate IsEmpty<T>(b: Bytes<T>) {
    b.Nil? || b.Blank?
  }

  /** A copy of the bytes; a copy of nothing is nil. */
  function Copy<T>(b: Bytes<T>): Bytes<T> {
    if IsEmpty(b) then Nil else b
  }

  /** The document under `k`, empty when there is none. */
  function At<K>(docs: map<K, Doc>, k: K): Doc {
    if k in docs then docs[k] else {}
  }

  function Known(sv: StateVector, client: nat): nat {
    if client in sv then sv[client] else 0
  }

  /** The first clock at or after `from` that `d` lacks for `client`. */
  function FirstGap(d: Doc, client: nat, from: nat): (gap: nat)
    ensures from <= gap
    ensures Op(client, gap) !in d
    ensures forall k: nat :: from <= k < gap ==> Op(client, k) in d
    decreases |d|
  {
    if Op(client, from) in d then FirstGap(d - {Op(client, from)}, client, from + 1) else from
  }

  /** The longest contiguous prefix known for each editor. */
  function VectorOf(d: Doc): StateVector {
    var clients := set op | op in d :: op.client;
    map c | c in clients :: FirstGap(d, c, 0)
  }

  /** What `d` holds at or beyond the vector. */
  function Missing(d: Doc, sv: StateVector): Doc {
    set op | op in d && Known(sv, op.client) <= op.clock
  }

  ghost predicate GapFree(d: Doc) {
    forall op, k: nat :: op in d && k < op.clock ==> Op(op.client, k) in d
  }

  /** A client that sent its vector and receives the missing part has everything `d` holds,
      whatever gaps it had, and even if it has learned more since it sent the vector. */
  lemma MissingCovers(d: Doc, sent: Doc, now: Doc)
    requires sent <= now
    ensures d <= now + Missing(d, VectorOf(sent))
    ensures Missing(d, VectorOf(sent)) <= d
  {
    forall op | op in d && op !in Missing(d, VectorOf(sent))
      ensures op in now
    {
      assert op.clock < Known(VectorOf(sent), op.client) == FirstGap(sent, op.client, 0);
      assert Op(op.client, op.clock) in sent;
    }
  }

  /** What is resent needlessly is exactly what the client holds behind a gap of its own. */
  lemma ResentIsBehindGap(d: Doc, known: Doc, op: Op)
    ensures op in Missing(d, VectorOf(known)) * known <==>
            op in d && op in known && exists k: nat :: k < op.clock && Op(op.client, k) !in known
  {
    var gap := FirstGap(known, op.client, 0);
    if op in known {
      assert Known(VectorOf(known), op.client) == gap;
      if op.clock < gap {
        assert forall k: nat :: k < op.clock ==> Op(op.client, k) in known;
      } else {
        assert op == Op(op.client, op.clock) && op.clock != gap;
        assert gap < op.clock && Op(op.client, gap) !in known;
      }
    }
  }

  /** For a gap-free client the delta is the exact difference. */
  lemma DeltaIsDifference(d: Doc, known: Doc)
    requires GapFree(known)
    ensures Missing(d, VectorOf(known)) == d - known
  {
    MissingCovers(d, known, known);
    forall op | op in Missing(d, VectorOf(known))
      ensures op !in known
    {
      ResentIsBehindGap(d, known, op);
    }
  }
}
