/** Who is present in a room, and where their cursors are. */
module Presences {
  import opened Outcomes
  import opened Uuids

  datatype Cursor = Cursor(anchor: int, head: int)

  datatype Presence = Presence(userID: Uuid, email: string, color: string, fileID: Uuid, cursor: Cursor)

  const PALETTE := ["#3B82F6", "#10B981", "#F59E0B", "#EF4444", "#8B5CF6", "#EC4899",
                    "#06B6D4", "#84CC16", "#F97316", "#6366F1", "#14B8A6", "#D946EF"]

  /** The first four bytes of an id, read big-endian. */
  function FirstWord(id: Uuid): (w: nat)
    ensures w < 0x1_0000_0000
    ensures w * 0x1_0000_0000_0000_0000_0000_0000 <= id < (w + 1) * 0x1_0000_0000_0000_0000_0000_0000
  {
    id / 0x1_0000_0000_0000_0000_0000_0000
  }

  function ColorForUser(id: Uuid): string {
    PALETTE[FirstWord(id) % |PALETTE|]
  }

  lemma PaletteIsDistinct(i: nat, j: nat)
    requires i < j < |PALETTE|
    ensures PALETTE[i] != PALETTE[j]
  {
    assert PALETTE[i][1] != PALETTE[j][1] || PALETTE[i][2] != PALETTE[j][2];
  }

  /** Two users share a colour exactly when the first words of their ids agree modulo the palette. */
  lemma SameColorIff(a: Uuid, b: Uuid)
    ensures ColorForUser(a) == ColorForUser(b) <==> FirstWord(a) % |PALETTE| == FirstWord(b) % |PALETTE|
  {
    var i, j := FirstWord(a) % |PALETTE|, FirstWord(b) % |PALETTE|;
    if i < j {
      PaletteIsDistinct(i, j);
    } else if j < i {
      PaletteIsDistinct(j, i);
    }
  }

  /** The palette is dealt out in turn: words that are `k` beyond a multiple of twelve get the k-th colour. */
  lemma ColorIsDealt(id: Uuid, rounds: nat, k: nat)
    requires k < 12 && FirstWord(id) == 12 * rounds + k
    ensures ColorForUser(id)
            == ["#3B82F6", "#10B981", "#F59E0B", "#EF4444", "#8B5CF6", "#EC4899",
                "#06B6D4", "#84CC16", "#F97316", "#6366F1", "#14B8A6", "#D946EF"][k]
  {
    assert (12 * rounds + k) % 12 == k;
  }

  // ---- the store of a room

  type PresenceMap = map<Uuid, Presence>

  /** Each presence sits under its own user and has that user's colour. */
  ghost predicate ValidPresences(m: PresenceMap) {
    forall u :: u in m ==> m[u].userID == u && m[u].color == ColorForUser(u)
  }

  /** `list` holds every presence of the store once, in some order. */
  ghost predicate Lists(list: seq<Presence>, m: PresenceMap) {
    && (forall p :: p in list <==> p.userID in m && m[p.userID] == p)
    && (forall i, j :: 0 <= i < j < |list| ==> list[i].userID != list[j].userID)
  }

  /** What a receiver of the list rebuilds. */
  function Keyed(list: seq<Presence>): PresenceMap {
    if list == [] then map[] else Keyed(list[..|list| - 1])[list[|list| - 1].userID := list[|list| - 1]]
  }

  lemma {:induction false} KeyedHolds(list: seq<Presence>)
    requires forall i, j :: 0 <= i < j < |list| ==> list[i].userID != list[j].userID
    ensures forall p :: p in list ==> p.userID in Keyed(list) && Keyed(list)[p.userID] == p
    ensures forall u :: u in Keyed(list) ==> Keyed(list)[u] in list && Keyed(list)[u].userID == u
  {
    if list != [] {
      KeyedHolds(list[..|list| - 1]);
    }
  }

  /** Whatever order the snapshot was taken in, the receiver rebuilds the store. */
  lemma KeyedListing(list: seq<Presence>, m: PresenceMap)
    requires Lists(list, m) && ValidPresences(m)
    ensures Keyed(list) == m
  {
    KeyedHolds(list);
    forall u | u in m
      ensures u in Keyed(list) && Keyed(list)[u] == m[u]
    {
      assert m[u] in list;
    }
  }

  class AwarenessStore {
    var presences: PresenceMap

    ghost predicate Valid()
      reads this
    {
      ValidPresences(presences)
    }

    constructor ()
      ensures Valid() && presences == map[]
    {
      presences := map[];
    }

    method SetPresence(userID: Uuid, email: string, fileID: Uuid, cursor: Cursor) returns (presence: Presence)
      requires Valid()
      modifies this
      ensures Valid() && presence == Presence(userID, email, ColorForUser(userID), fileID, cursor)
      ensures presences == old(presences)[userID := presence]
    {
      presence := Presence(userID, email, ColorForUser(userID), fileID, cursor);
      presences := presences[userID := presence];
    }

    method RemovePresence(userID: Uuid) returns (removed: bool)
      requires Valid()
      modifies this
      ensures Valid() && presences == Without(old(presences), userID)
      ensures removed <==> userID in old(presences)
    {
      removed := userID in presences;
      if removed {
        presences := Without(presences, userID);
      } else {
        assert Without(presences, userID) == presences;
      }
    }

    method Snapshot() returns (list: seq<Presence>)
      requires Valid()
      ensures Lists(list, presences)
    {
      list := [];
      var todo := presences.Keys;
      while todo != {}
        invariant todo <= presences.Keys
        invariant forall p :: p in list <==> p.userID in presences.Keys - todo && presences[p.userID] == p
        invariant forall i, j :: 0 <= i < j < |list| ==> list[i].userID != list[j].userID
      {
        var u :| u in todo;
        ghost var before := list;
        list, todo := list + [presences[u]], todo - {u};
        assert forall p :: p in list <==> p in before || p == presences[u];
      }
    }
  }
}
