/** The selectors `RoomList.tsx` computes: the search filter, the panel shown, and each row's highlight and label. */
module RoomList {
  import opened Wrappers
  import opened Seqs
  import Text
  import opened RoomContext

  /** The search match: the lower-cased room name contains the lower-cased term. */
  predicate NameMatches(room: Room, term: string) {
    Text.Contains(Text.Lower(room.name), Text.Lower(term))
  }

  /** `filteredRooms`: the rooms whose name matches, in their original order. */
  function FilteredRooms(rooms: seq<Room>, term: string): (r: seq<Room>)
    ensures IsSubsequence(r, rooms)
    ensures forall i :: 0 <= i < |r| ==> NameMatches(r[i], term)
    ensures forall i :: 0 <= i < |rooms| && NameMatches(rooms[i], term) ==> rooms[i] in r
    ensures forall i :: 0 <= i < |rooms| && NameMatches(rooms[i], term) ==> multiset(r)[rooms[i]] == multiset(rooms)[rooms[i]]
  {
    FilterIsSubsequence(rooms, (x: Room) => NameMatches(x, term));
    FilterKeepsCount(rooms, (x: Room) => NameMatches(x, term));
    Filter(rooms, (x: Room) => NameMatches(x, term))
  }

  /** An empty search term keeps every room, in order. */
  lemma EmptyTermKeepsAllRooms(rooms: seq<Room>)
    ensures FilteredRooms(rooms, "") == rooms
  {
    FilterKeepsAll(rooms, (x: Room) => NameMatches(x, ""));
  }

  /** Filtering the filtered rooms again with the same term changes nothing. */
  lemma FilteredRoomsIdempotent(rooms: seq<Room>, term: string)
    ensures FilteredRooms(FilteredRooms(rooms, term), term) == FilteredRooms(rooms, term)
  {
    FilterIdempotent(rooms, (x: Room) => NameMatches(x, term));
  }

  /** `currentRoom?.id === room.id`. */
  predicate IsHighlighted(currentRoom: Option<Room>, room: Room) {
    currentRoom.Some? && currentRoom.value.id == room.id
  }

  function PrivacyLabel(room: Room): (caption: string)
    ensures caption == "Private room" <==> room.isPrivate
    ensures caption == "Public room" <==> !room.isPrivate
  {
    if room.isPrivate then "Private room" else "Public room"
  }

  datatype Row = Row(room: Room, highlighted: bool, caption: string)

  datatype Panel = LoadingRooms | NoRoomsFound | Rows(rows: seq<Row>)

  /**
   * What the room panel shows: the spinner while rooms load, whatever the filter gives;
   * otherwise "No rooms found" when nothing matches; otherwise one row per matching room.
   */
  function RoomPanel(loadingRooms: bool, rooms: seq<Room>, currentRoom: Option<Room>, term: string): (p: Panel)
    ensures loadingRooms <==> p == LoadingRooms
    ensures p == NoRoomsFound <==> !loadingRooms && FilteredRooms(rooms, term) == []
    ensures p.Rows? ==>
              && |p.rows| == |FilteredRooms(rooms, term)| > 0
              && forall i :: 0 <= i < |p.rows| ==>
                   && p.rows[i].room == FilteredRooms(rooms, term)[i]
                   && (p.rows[i].highlighted <==> currentRoom.Some? && currentRoom.value.id == p.rows[i].room.id)
                   && p.rows[i].caption == PrivacyLabel(p.rows[i].room)
  {
    if loadingRooms then LoadingRooms
    else
      var shown := FilteredRooms(rooms, term);
      if |shown| == 0 then NoRoomsFound
      else Rows(seq(|shown|, i requires 0 <= i < |shown| =>
                      Row(shown[i], IsHighlighted(currentRoom, shown[i]), PrivacyLabel(shown[i]))))
  }
}
