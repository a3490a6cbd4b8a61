/**
 The room-list cache of the lobby screen: a map from room name to the last
 room record the matchmaking service reported for it, folded from ordered
 batches of room-list updates.

 This module holds the value-level specification: the room record, the effect
 of one record on the cache, the fold of a whole batch, and the properties of
 that fold.
 */
module RoomListCache {

  datatype Option<T> = None | Some(value: T)

  /** One entry of a room-list update, as the matchmaking service delivers it.
      The player counts are carried along and never inspected. */
  datatype Room = Room(
    name: string,
    isOpen: bool,
    isVisible: bool,
    removedFromList: bool,
    playerCount: int,
    maxPlayers: int)

  type Cache = map<string, Room>

  /** A record that may be shown in the room list: open, visible and not delisted. */
  predicate Listable(room: Room)
  {
    room.isOpen && room.isVisible && !room.removedFromList
  }

  /** The entry a map holds for a key, if any. */
  function Lookup(cache: Cache, name: string): Option<Room>
  {
    if name in cache then Some(cache[name]) else None
  }

  /** Two maps with the same lookups are the same map. */
  lemma LookupDetermines(c1: Cache, c2: Cache)
    requires forall k :: Lookup(c1, k) == Lookup(c2, k)
    ensures c1 == c2
  {
    forall k | k in c1
      ensures k in c2 && c1[k] == c2[k]
    {
      assert Lookup(c1, k) == Lookup(c2, k);
    }
    forall k | k in c2
      ensures k in c1
    {
      assert Lookup(c1, k) == Lookup(c2, k);
    }
  }

  /** The effect of one record on the cache: a listable record is stored under
      its name (whether or not the name was cached before), any other record
      deletes its name (whether or not the name was cached before). */
  function ApplyRoom(cache: Cache, room: Room): (r: Cache)
    ensures room.name in r <==> Listable(room)
    ensures room.name in r ==> r[room.name] == room
    ensures r - {room.name} == cache - {room.name}
  {
    if Listable(room) then cache[room.name := room] else cache - {room.name}
  }

  /** The cache after a batch of records, applied one by one in arrival order. */
  function ApplyBatch(cache: Cache, rooms: seq<Room>): Cache
    decreases |rooms|
  {
    if rooms == [] then cache
    else ApplyRoom(ApplyBatch(cache, rooms[..|rooms| - 1]), rooms[|rooms| - 1])
  }

  /** The position of the last record in a batch that names a room, if any. */
  function LastIndexOf(rooms: seq<Room>, name: string): (r: Option<nat>)
    ensures r.None? ==> forall j :: 0 <= j < |rooms| ==> rooms[j].name != name
    ensures r.Some? ==> r.value < |rooms| && rooms[r.value].name == name
    ensures r.Some? ==> forall j :: r.value < j < |rooms| ==> rooms[j].name != name
    decreases |rooms|
  {
    if rooms == [] then None
    else if rooms[|rooms| - 1].name == name then Some(|rooms| - 1)
    else LastIndexOf(rooms[..|rooms| - 1], name)
  }

  /** The entry a batch must leave for a name: the last record for that name
      if it is listable, nothing if it is not, and the old entry if the batch
      does not mention the name. */
  function Expected(cache: Cache, rooms: seq<Room>, name: string): Option<Room>
  {
    match LastIndexOf(rooms, name)
    case None => Lookup(cache, name)
    case Some(i) => if Listable(rooms[i]) then Some(rooms[i]) else None
  }

  /** The names a batch mentions. */
  function Names(rooms: seq<Room>): set<string>
  {
    set i | 0 <= i < |rooms| :: rooms[i].name
  }

  /** Every name ends up with the entry its last record in the batch calls for. */
  lemma {:induction false} ApplyBatchLookup(cache: Cache, rooms: seq<Room>, name: string)
    ensures Lookup(ApplyBatch(cache, rooms), name) == Expected(cache, rooms, name)
    decreases |rooms|
  {
    if rooms != [] {
      var front, last := rooms[..|rooms| - 1], rooms[|rooms| - 1];
      var before := ApplyBatch(cache, front);
      assert ApplyBatch(cache, rooms) == ApplyRoom(before, last);
      if last.name != name {
        ApplyBatchLookup(cache, front, name);
        assert LastIndexOf(rooms, name) == LastIndexOf(front, name);
        assert Lookup(ApplyRoom(before, last), name) == Lookup(before, name) by {
          assert ApplyRoom(before, last) - {last.name} == before - {last.name};
          assert name !in {last.name};
        }
      }
    }
  }

  /** The last record for a name decides its entry: if that record is the
      position given by `i` and it is listable, the cache maps the name to it. */
  lemma {:induction false} LastListedIsCached(cache: Cache, rooms: seq<Room>, i: nat)
    requires i < |rooms| && Listable(rooms[i])
    requires forall j :: i < j < |rooms| ==> rooms[j].name != rooms[i].name
    ensures rooms[i].name in ApplyBatch(cache, rooms)
    ensures ApplyBatch(cache, rooms)[rooms[i].name] == rooms[i]
  {
    ApplyBatchLookup(cache, rooms, rooms[i].name);
    var last := LastIndexOf(rooms, rooms[i].name);
    assert last == Some(i);
  }

  /** If the last record for a name is closed, invisible or delisted, the cache
      has no entry for that name after the batch. */
  lemma {:induction false} LastDelistedIsAbsent(cache: Cache, rooms: seq<Room>, i: nat)
    requires i < |rooms| && !Listable(rooms[i])
    requires forall j :: i < j < |rooms| ==> rooms[j].name != rooms[i].name
    ensures rooms[i].name !in ApplyBatch(cache, rooms)
  {
    ApplyBatchLookup(cache, rooms, rooms[i].name);
    var last := LastIndexOf(rooms, rooms[i].name);
    assert last == Some(i);
  }

  /** Names the batch does not mention keep exactly their previous entries. */
  lemma UnmentionedUnchanged(cache: Cache, rooms: seq<Room>)
    ensures ApplyBatch(cache, rooms) - Names(rooms) == cache - Names(rooms)
  {
    var after := ApplyBatch(cache, rooms);
    forall k
      ensures Lookup(after - Names(rooms), k) == Lookup(cache - Names(rooms), k)
    {
      if k !in Names(rooms) {
        ApplyBatchLookup(cache, rooms, k);
      }
    }
    LookupDetermines(after - Names(rooms), cache - Names(rooms));
  }

  /** An empty batch leaves the cache as it was. */
  lemma EmptyBatchUnchanged(cache: Cache)
    ensures ApplyBatch(cache, []) == cache
  {
  }

  /** Every cached room is one that may be listed. */
  ghost predicate OnlyListable(cache: Cache)
  {
    forall k :: k in cache ==> Listable(cache[k])
  }

  /** Every cached room is stored under its own name. */
  ghost predicate KeyedByName(cache: Cache)
  {
    forall k :: k in cache ==> cache[k].name == k
  }

  /** Each batch keeps both cache invariants. */
  lemma {:induction false} ApplyBatchPreservesInvariants(cache: Cache, rooms: seq<Room>)
    requires OnlyListable(cache) && KeyedByName(cache)
    ensures OnlyListable(ApplyBatch(cache, rooms)) && KeyedByName(ApplyBatch(cache, rooms))
    decreases |rooms|
  {
    if rooms != [] {
      var front, last := rooms[..|rooms| - 1], rooms[|rooms| - 1];
      var before := ApplyBatch(cache, front);
      ApplyBatchPreservesInvariants(cache, front);
      var after := ApplyRoom(before, last);
      forall k | k in after
        ensures Listable(after[k]) && after[k].name == k
      {
        if k != last.name {
          assert k in after - {last.name};
        }
      }
    }
  }

  /** Applying two batches in turn is applying their concatenation. */
  lemma {:induction false} ApplyBatchConcat(cache: Cache, first: seq<Room>, second: seq<Room>)
    ensures ApplyBatch(ApplyBatch(cache, first), second) == ApplyBatch(cache, first + second)
    decreases |second|
  {
    if second == [] {
      assert first + second == first;
    } else {
      var both := first + second;
      assert both[..|both| - 1] == first + second[..|second| - 1];
      assert both[|both| - 1] == second[|second| - 1];
      ApplyBatchConcat(cache, first, second[..|second| - 1]);
    }
  }

  /** Reporting the same room twice in a row, in particular delisting it
      twice, has the effect of reporting it once. */
  lemma ApplyRoomIdempotent(cache: Cache, room: Room)
    ensures ApplyRoom(ApplyRoom(cache, room), room) == ApplyRoom(cache, room)
  {
  }

  /** Applying the same batch twice leaves the same cache as applying it once. */
  lemma ApplyBatchIdempotent(cache: Cache, rooms: seq<Room>)
    ensures ApplyBatch(ApplyBatch(cache, rooms), rooms) == ApplyBatch(cache, rooms)
  {
    var once := ApplyBatch(cache, rooms);
    forall k
      ensures Lookup(ApplyBatch(once, rooms), k) == Lookup(once, k)
    {
      ApplyBatchLookup(once, rooms, k);
      ApplyBatchLookup(cache, rooms, k);
    }
    LookupDetermines(ApplyBatch(once, rooms), once);
  }
}
