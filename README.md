# Room-list cache of the Island War lobby

The lobby controller `NetworkManager` keeps a private dictionary
`cachedRoomList` from room name to the last room record the matchmaking
service reported. `Start` creates it empty. Each `OnRoomListUpdate` callback
walks an ordered batch of room records and reconciles the dictionary in
place, in arrival order:

- a record that is closed, invisible or flagged `RemovedFromList` deletes
  its name from the cache, guarded by `ContainsKey`;
- any other record overwrites the entry for its name, or adds one with
  `Dictionary.Add` when the name is new.

The model has two modules.

- `RoomListCache` (RoomListCache.dfy) is the value-level specification. It
  holds the `Room` record, `ApplyRoom` (the effect of one record),
  `ApplyBatch` (the fold of a batch in arrival order), `LastIndexOf`, which
  finds the last record for a name, and `Expected`, the entry that last
  record calls for. The lemmas state what a batch does to every name. They
  also show that each batch keeps the cache invariants, that batches
  compose, and that applying a batch twice is the same as applying it once.
- `NetworkManagerModel` (NetworkManager.dfy) holds the class
  `NetworkManager`. Its `cachedRoomList` field is a `map` that the
  constructor (`Start`) creates empty. Its `OnRoomListUpdate` method runs
  the source's loop and keeps the source's `ContainsKey` guards. The method
  is proved equal to `ApplyBatch`. A ghost field `reported` records every
  room record received in the session. The object invariant `Valid()` states
  that the cache is the fold of `reported` over the empty cache, so it holds
  only listable rooms, each stored under its own name. `DictionaryAdd`
  models `Dictionary.Add`, whose key must be absent (the library throws on a
  duplicate key). Its precondition is proved at the one place the loop calls
  it. `LobbyScenarios` walks through an example session: a room appears, is
  updated and closes; then delisted and listable records arrive together.

Two behaviours of the loop that the model keeps:

- `cachedRoomList` is never cleared. Only `Start` creates it, and
  `OnJoinedRoomButtonClicked` (lines 65-73) leaves the lobby without touching
  it, so the model has no clear operation.
- A batch may name a room more than once. The loop resolves repeats
  last-write-wins in arrival order, and so does the model.

## Model

| member | source | states |
|---|---|---|
| `NetworkManagerModel.NetworkManager.constructor` | Assets/Scripts/NetworkManager.cs:40-51 | the cache starts empty with nothing reported, and the object invariant holds from the start of the session |
| `NetworkManagerModel.NetworkManager.OnRoomListUpdate` | Assets/Scripts/NetworkManager.cs:162-189 | the in-place loop with its guards leaves exactly `ApplyBatch` of the old cache and the batch; both branches of each `ContainsKey` guard (lines 171 and 179) have the effect `ApplyRoom` gives. It appends the batch to the session history and keeps the invariant (cache = fold of all records reported; only listable rooms; each stored under its name). An empty batch changes nothing |
| `NetworkManagerModel.DictionaryAdd` | Assets/Scripts/NetworkManager.cs:184-187 | `Add` is only called on an absent name (its precondition is discharged in `OnRoomListUpdate`); it grows the map by exactly one entry and changes no other key |
| `NetworkManagerModel.NetworkManager.CachedIsLastReport` | Assets/Scripts/NetworkManager.cs:50-189 | over the whole session since `Start`, a name is cached if and only if some reported record names it and the last such record is listable, and the cache then maps the name to that record |
| `NetworkManagerModel.NetworkManager.Listed` | Assets/Scripts/NetworkManager.cs:191 | the values the loop at line 191 enumerates, read at the end of the callback: each is open, visible, not delisted and is the entry for its own name, and every cached entry is among them. This says nothing about the rows already on screen |
| `RoomListCache.Listable` | Assets/Scripts/NetworkManager.cs:169 | the condition on which a record is kept: open, visible and not removed from the list, the negation of the delisting test at line 169. It is a plain predicate with no contract of its own |
| `RoomListCache.ApplyBatch` | Assets/Scripts/NetworkManager.cs:164-189 | the `foreach` over a batch as a fold of `ApplyRoom` in arrival order. It has no contract of its own: `ApplyBatchLookup` fixes its meaning at every name, and `OnRoomListUpdate` is proved equal to it |
| `RoomListCache.ApplyRoom` | Assets/Scripts/NetworkManager.cs:169-187 | after one record, its name is cached if and only if the record is listable, and then it maps to that record. No other name changes |
| `RoomListCache.LastIndexOf` | Assets/Scripts/NetworkManager.cs:164 | returns the position of the record for a name that no later record in the batch names, or none exactly when no record names it |
| `RoomListCache.ApplyBatchLookup` | Assets/Scripts/NetworkManager.cs:164-189 | for every name, the entry after a batch is decided by the last record for that name (kept if listable, absent if not) or, if the batch does not name it, is the old entry |
| `RoomListCache.LastListedIsCached` | Assets/Scripts/NetworkManager.cs:176-187 | if the last record for a name is open, visible and not removed, the cache maps the name to exactly that record (last write wins in arrival order) |
| `RoomListCache.LastDelistedIsAbsent` | Assets/Scripts/NetworkManager.cs:169-175 | if the last record for a name is closed, invisible or removed, the cache has no entry for that name after the batch |
| `RoomListCache.UnmentionedUnchanged` | Assets/Scripts/NetworkManager.cs:164-189 | names no record of the batch mentions keep exactly their previous entries (the caches agree off the batch's names) |
| `RoomListCache.EmptyBatchUnchanged` | Assets/Scripts/NetworkManager.cs:164 | an empty batch leaves the cache unchanged |
| `RoomListCache.ApplyBatchPreservesInvariants` | Assets/Scripts/NetworkManager.cs:169-187 | if every cached value is listable and stored under its own name before a batch, both still hold after it |
| `RoomListCache.ApplyBatchConcat` | Assets/Scripts/NetworkManager.cs:162-189 | applying two batches one after the other equals applying their concatenation, so the cache of a session is the fold of every record reported since `Start` |
| `RoomListCache.ApplyRoomIdempotent` | Assets/Scripts/NetworkManager.cs:169-187 | applying the same record twice, in particular delisting a room twice, equals applying it once |
| `RoomListCache.ApplyBatchIdempotent` | Assets/Scripts/NetworkManager.cs:164-189 | applying the same batch twice leaves the same cache as applying it once |

## Left out

- The rendering loop (Assets/Scripts/NetworkManager.cs:192-205) is left out: prefab instantiation, transform parenting, text and button wiring are engine calls. Only the read of `cachedRoomList.Values` at line 191 is modelled, by `Listed`. That loop adds rows on every update without clearing the old ones, so the model makes no claim that the rows on screen mirror the cache.
- NetworkManagerModel.NetworkManager.Listed: holds "every value enumerated at line 191 is open, visible and not delisted" by construction, because `Room` is an immutable value. The source's dictionary stores references to `RoomInfo` objects that the multiplayer library owns, and line 191 reads them back later. The property holds there only if the library does not change a record after it delivers it. The code at lines 162-189 never writes to a `RoomInfo`.
- A `null` room name is not modelled, because Dafny strings cannot be null. In the source such a name makes `ContainsKey` throw `ArgumentNullException` at line 171 or 179 partway through a batch. That leaves the cache partly updated and skips the rendering loop.
- `Debug.Log(room.Name)` at line 166 is logging and is left out.
- `ActivatePanel` (lines 80-88) and the panel switches that call it are left out: they toggle engine objects with `SetActive`.
- `OnRoomCreateButtonClicked` (lines 95-108) is left out. It depends on `Random.Range`, `int.Parse` and a truncating `(byte)` cast before it hands off to the multiplayer library.
- The login, lobby and join flows and the other library callbacks (lines 65-73, 111-159, 208-219) are left out: they are network-client calls and logging.
- `Update` (lines 54-58) is left out: it writes a per-frame status text.
- The comment at line 168 says the library sets `RemovedFromList` when a room is hidden, closed or full. That is the library's behaviour and is not visible in this code. The model treats the three flags as independent inputs and never inspects the player counts.
- The `Dictionary` type's hashing and enumeration order are left out. The cache is a Dafny `map`, whose order is irrelevant to the lookups the source makes. `Listed` returns a set, so the order in which line 191 enumerates `Values` (and so the order of the rows it creates) is not modelled.
