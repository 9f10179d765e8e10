/** Success and failure values shared by every component, with the failures the server names. */
module Outcomes {

  datatype Option<+T> = None | Some(value: T)

  datatype Result<+T> = Ok(value: T) | Err(error: Error)

  datatype Error =
    | EmptyId
    | EmptyName
    | EmptyProjectId
    | EmptyFileId
    | EmptyFileName
    | EmptyDelta
    | EmptyUserId
    | EmptyUpdatedAt
    | NilState
    | InvalidUuid
    | InvalidUpdate
    | InvalidVector
    | TypstFileNotFound
    | BinaryFileNotFound
    | FileNotFound
    | ProjectNotFound
    | UserNotInProject
    | NoUsers
    | InvalidCredentials
    | InvalidRefreshToken
    | EmptyToken
    | UserNotFound
    | ClientClosed
    | BufferFull
    | StoreFailure

  /** The map without the key. */
  function Without<K, V>(m: map<K, V>, k: K): map<K, V> {
    map x | x in m && x != k :: m[x]
  }

  /** `order` lists every key exactly once: one possible iteration of a Go map with these keys. */
  ghost predicate Iterates<K>(order: seq<K>, keys: set<K>) {
    && (forall i, j :: 0 <= i < j < |order| ==> order[i] != order[j])
    && (forall k :: k in order ==> k in keys)
    && (forall k :: k in keys ==> k in order)
  }

  /** Every map can be iterated. */
  lemma {:induction false} SomeIteration<K>(keys: set<K>) returns (order: seq<K>)
    ensures Iterates(order, keys)
  {
    if keys == {} {
      order := [];
    } else {
      var k :| k in keys;
      var rest := SomeIteration(keys - {k});
      order := rest + [k];
    }
  }
}
