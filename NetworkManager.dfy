/**
 The lobby controller's room-list state: the `cachedRoomList` dictionary that
 `Start` creates empty and every room-list update reconciles in place.
 */
module NetworkManagerModel {

  import opened RoomListCache

  /** `Dictionary.Add`: inserts a key that must not be present yet (the library
      throws on a duplicate key). The map gains exactly one entry. */
  function DictionaryAdd(cache: Cache, name: string, room: Room): (r: Cache)
    requires name !in cache
    ensures |r| == |cache| + 1
    ensures name in r && r[name] == room
    ensures r - {name} == cache
  {
    cache[name := room]
  }

  class NetworkManager {
    /** The rooms currently listed, by name. */
    var cachedRoomList: Cache
    /** Every room record received during the session, in arrival order. */
    ghost var reported: seq<Room>

    /** The cache is the fold of everything reported so far over the empty
        cache, and so holds only listable rooms, each under its own name. */
    ghost predicate Valid()
      reads this
    {
      && cachedRoomList == ApplyBatch(map[], reported)
      && OnlyListable(cachedRoomList)
      && KeyedByName(cachedRoomList)
    }

    /** `Start`: the cache begins empty. */
    constructor ()
      ensures Valid()
      ensures cachedRoomList == map[] && reported == []
    {
      cachedRoomList := map[];
      reported := [];
    }

    /** `OnRoomListUpdate`: walks the batch in arrival order; a closed,
        invisible or delisted record removes its name if cached, any other
        record overwrites or adds the entry for its name. */
    method OnRoomListUpdate(roomList: seq<Room>)
      requires Valid()
      modifies this
      ensures Valid()
      ensures cachedRoomList == ApplyBatch(old(cachedRoomList), roomList)
      ensures reported == old(reported) + roomList
      ensures roomList == [] ==> cachedRoomList == old(cachedRoomList)
    {
      ghost var start := cachedRoomList;
      for i := 0 to |roomList|
        invariant cachedRoomList == ApplyBatch(start, roomList[..i])
        invariant reported == old(reported)
      {
        var room := roomList[i];
        ghost var next := ApplyRoom(cachedRoomList, room);
        assert roomList[..i + 1][..i] == roomList[..i];
        assert ApplyBatch(start, roomList[..i + 1]) == next;
        if !room.isOpen || !room.isVisible || room.removedFromList {
          if room.name in cachedRoomList {
            cachedRoomList := cachedRoomList - {room.name};
          } else {
            assert cachedRoomList - {room.name} == cachedRoomList;
          }
        } else {
          if room.name in cachedRoomList {
            cachedRoomList := cachedRoomList[room.name := room];
          } else {
            cachedRoomList := DictionaryAdd(cachedRoomList, room.name, room);
          }
        }
        assert cachedRoomList == next;
      }
      assert roomList[..|roomList|] == roomList;
      ApplyBatchConcat(map[], reported, roomList);
      reported := reported + roomList;
      ApplyBatchPreservesInvariants(start, roomList);
    }

    /** The listing over the whole session: a name is cached exactly when some
        record reported since `Start` names it and the last such record is
        listable, and the cache then holds that very record. */
    lemma CachedIsLastReport(name: string)
      requires Valid()
      ensures name in cachedRoomList <==>
                LastIndexOf(reported, name).Some? && Listable(reported[LastIndexOf(reported, name).value])
      ensures name in cachedRoomList ==> cachedRoomList[name] == reported[LastIndexOf(reported, name).value]
    {
      ApplyBatchLookup(map[], reported, name);
    }

    /** `cachedRoomList.Values`, the values the rendering loop enumerates at the
        end of a callback: each is listable and is the entry for its own name,
        and every entry is among them. */
    function Listed(): (rooms: set<Room>)
      reads this
      requires Valid()
      ensures forall r :: r in rooms ==> Listable(r) && r.name in cachedRoomList && cachedRoomList[r.name] == r
      ensures forall k :: k in cachedRoomList ==> cachedRoomList[k] in rooms
    {
      cachedRoomList.Values
    }
  }

  /** An example session: a room appears, is updated, closes; a delisted
      record next to a new one; a delisting that leaves other rooms alone. */
  method LobbyScenarios()
  {
    var m := new NetworkManager();
    var r1 := Room("Room 12", true, true, false, 1, 4);
    var r2 := Room("Room 12", true, true, false, 2, 4);
    var r3 := Room("Room 12", false, true, false, 2, 4);
    m.OnRoomListUpdate([r1]);
    assert m.cachedRoomList == map["Room 12" := r1];
    m.OnRoomListUpdate([r2]);
    assert m.cachedRoomList == map["Room 12" := r2];
    m.OnRoomListUpdate([r3]);
    assert m.cachedRoomList == map[];

    var a := Room("A", true, true, false, 1, 2);
    var b := Room("B", true, true, true, 1, 2);
    m.OnRoomListUpdate([a, b]);
    assert m.cachedRoomList == map["A" := a];

    var b2 := Room("B", true, true, false, 1, 2);
    var aGone := Room("A", true, true, true, 1, 2);
    m.OnRoomListUpdate([b2]);
    m.OnRoomListUpdate([aGone]);
    assert m.cachedRoomList == map["B" := b2];
  }
}
