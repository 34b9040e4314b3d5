/**
 * The room inventory and the availability query: a room is offered for a
 * stay when it has the requested type (if one is given) and no reservation
 * that is not cancelled holds the same room over an overlapping stay.
 */
module RoomCatalog {
  import opened Base
  import opened Records

  // ---------------------------------------------------------------------------
  // Overlap of stays

  /**
   * Whether the stays [aStart, aEnd) and [bStart, bEnd) overlap, written as
   * the source writes it. The ensures gives the half-open reading: both stays
   * are non-empty and each starts before the other ends.
   */
  function DatesOverlap(aStart: int, aEnd: int, bStart: int, bEnd: int): (r: bool)
    ensures r <==> aStart < aEnd && bStart < bEnd && aStart < bEnd && bStart < aEnd
  {
    aEnd >= bStart && bEnd >= aStart && aStart < aEnd && bStart < bEnd
    && !(aEnd == bStart || bEnd == aStart)
  }

  lemma DatesOverlapSymmetric(aStart: int, aEnd: int, bStart: int, bEnd: int)
    ensures DatesOverlap(aStart, aEnd, bStart, bEnd) == DatesOverlap(bStart, bEnd, aStart, aEnd)
  {
  }

  /** A stay ending on the day another starts does not overlap it: back-to-back bookings are allowed. */
  lemma BackToBackNoOverlap(aStart: int, middle: int, bEnd: int)
    ensures !DatesOverlap(aStart, middle, middle, bEnd)
    ensures !DatesOverlap(middle, bEnd, aStart, middle)
  {
  }

  /** An empty or inverted stay overlaps nothing. */
  lemma DegenerateNoOverlap(aStart: int, aEnd: int, bStart: int, bEnd: int)
    requires aEnd <= aStart
    ensures !DatesOverlap(aStart, aEnd, bStart, bEnd)
    ensures !DatesOverlap(bStart, bEnd, aStart, aEnd)
  {
  }

  // ---------------------------------------------------------------------------
  // Availability, as a specification

  /** A reservation keeps `room` from being offered for [inDate, outDate). */
  predicate Blocks(res: Reservation, room: Room, inDate: int, outDate: int) {
    res.status != Cancelled && res.roomId == room.id
    && DatesOverlap(inDate, outDate, res.checkIn, res.checkOut)
  }

  predicate Occupied(room: Room, inDate: int, outDate: int, allRes: seq<Reservation>) {
    exists k :: 0 <= k < |allRes| && Blocks(allRes[k], room, inDate, outDate)
  }

  predicate HasType(room: Room, t: Option<RoomType>) {
    t.None? || room.roomType == t.value
  }

  /** `rooms.removeIf(r -> r.type != type)` when a type is given. */
  function WithType(rooms: seq<Room>, t: Option<RoomType>): (r: seq<Room>)
    ensures forall x :: x in r <==> x in rooms && HasType(x, t)
    ensures t.None? ==> r == rooms
  {
    if rooms == [] then []
    else
      assert rooms == rooms[..|rooms| - 1] + [rooms[|rooms| - 1]];
      WithType(rooms[..|rooms| - 1], t)
         + (if HasType(rooms[|rooms| - 1], t) then [rooms[|rooms| - 1]] else [])
  }

  /** The rooms offered for [inDate, outDate), in inventory order. */
  function Available(rooms: seq<Room>, inDate: int, outDate: int, t: Option<RoomType>,
                     allRes: seq<Reservation>): seq<Room>
  {
    if rooms == [] then []
    else
      var room := rooms[|rooms| - 1];
      Available(rooms[..|rooms| - 1], inDate, outDate, t, allRes)
      + (if HasType(room, t) && !Occupied(room, inDate, outDate, allRes) then [room] else [])
  }

  /** `xs` is `ys` with some elements left out and the rest in their order. */
  predicate IsSubsequence<T(==)>(xs: seq<T>, ys: seq<T>)
    decreases |ys|
  {
    if xs == [] then true
    else if ys == [] then false
    else (xs[|xs| - 1] == ys[|ys| - 1] && IsSubsequence(xs[..|xs| - 1], ys[..|ys| - 1]))
         || IsSubsequence(xs, ys[..|ys| - 1])
  }

  /** A room is offered exactly when it is in the inventory, has the type asked for and is not blocked. */
  lemma {:induction false} AvailableMember(rooms: seq<Room>, inDate: int, outDate: int,
                                           t: Option<RoomType>, allRes: seq<Reservation>, room: Room)
    ensures room in Available(rooms, inDate, outDate, t, allRes)
        <==> room in rooms && HasType(room, t) && !Occupied(room, inDate, outDate, allRes)
  {
    if rooms != [] {
      var init := rooms[..|rooms| - 1];
      AvailableMember(init, inDate, outDate, t, allRes, room);
      assert rooms == init + [rooms[|rooms| - 1]];
    }
  }

  /** The offered rooms keep the inventory's order. */
  lemma {:induction false} AvailableIsSubsequence(rooms: seq<Room>, inDate: int, outDate: int,
                                                  t: Option<RoomType>, allRes: seq<Reservation>)
    ensures IsSubsequence(Available(rooms, inDate, outDate, t, allRes), rooms)
  {
    if rooms != [] {
      var init := rooms[..|rooms| - 1];
      var a := Available(rooms, inDate, outDate, t, allRes);
      var b := Available(init, inDate, outDate, t, allRes);
      AvailableIsSubsequence(init, inDate, outDate, t, allRes);
      if a != b {
        assert a[..|a| - 1] == b;
      } else if a != [] {
        assert IsSubsequence(a, init);
      }
    }
  }

  /** The type filter keeps the inventory's order. */
  lemma {:induction false} WithTypeIsSubsequence(rooms: seq<Room>, t: Option<RoomType>)
    ensures IsSubsequence(WithType(rooms, t), rooms)
  {
    if rooms != [] {
      var init := rooms[..|rooms| - 1];
      var a, b := WithType(rooms, t), WithType(init, t);
      WithTypeIsSubsequence(init, t);
      if a != b {
        assert a[..|a| - 1] == b;
      } else if a != [] {
        assert IsSubsequence(a, init);
      }
    }
  }

  /** Filtering by type first, as the source does, does not change the result. */
  lemma {:induction false} AvailableWithType(rooms: seq<Room>, inDate: int, outDate: int,
                                             t: Option<RoomType>, allRes: seq<Reservation>)
    ensures Available(WithType(rooms, t), inDate, outDate, t, allRes)
         == Available(rooms, inDate, outDate, t, allRes)
  {
    if rooms != [] {
      var init := rooms[..|rooms| - 1];
      var room := rooms[|rooms| - 1];
      AvailableWithType(init, inDate, outDate, t, allRes);
      var w := WithType(init, t);
      if HasType(room, t) {
        assert WithType(rooms, t)[..|w|] == w;
      } else {
        assert WithType(rooms, t) == w;
      }
    }
  }

  /** Cancelling a reservation can only add rooms to those offered, never remove one. */
  lemma {:induction false} AvailableGrowsOnCancel(rooms: seq<Room>, inDate: int, outDate: int,
                                                  t: Option<RoomType>, allRes: seq<Reservation>,
                                                  freed: seq<Reservation>, room: Room)
    requires |freed| == |allRes|
    requires forall k :: 0 <= k < |allRes| ==> freed[k] == allRes[k] || freed[k].status == Cancelled
    requires room in Available(rooms, inDate, outDate, t, allRes)
    ensures room in Available(rooms, inDate, outDate, t, freed)
  {
    AvailableMember(rooms, inDate, outDate, t, allRes, room);
    AvailableMember(rooms, inDate, outDate, t, freed, room);
  }

  /** `byId`: the first room of the inventory with the given id. */
  function RoomById(rooms: seq<Room>, id: Int32): (r: Option<Room>)
    ensures r.None? <==> forall k :: 0 <= k < |rooms| ==> rooms[k].id != id
    ensures r.Some? ==> exists k :: 0 <= k < |rooms| && rooms[k] == r.value && r.value.id == id
                                    && forall j :: 0 <= j < k ==> rooms[j].id != id
  {
    if rooms == [] then None
    else if rooms[0].id == id then Some(rooms[0])
    else
      var r := RoomById(rooms[1..], id);
      assert forall k :: 1 <= k < |rooms| ==> rooms[k] == rooms[1..][k - 1];
      r
  }

  // ---------------------------------------------------------------------------
  // The catalog

  /** The room inventory; `rooms` is the content of the rooms file. */
  class Catalog {
    var rooms: seq<Room>

    constructor (rooms: seq<Room>)
      ensures this.rooms == rooms
    {
      this.rooms := rooms;
    }

    /** `saveAll`: the inventory is replaced as a whole. */
    method SaveAll(rooms: seq<Room>)
      modifies this
      ensures this.rooms == rooms
    {
      this.rooms := rooms;
    }

    /** `byId`: the first room with the given id, if any. */
    function ById(id: Int32): (r: Option<Room>)
      reads this
      ensures r == RoomById(rooms, id)
      ensures r.Some? ==> r.value in rooms && r.value.id == id
      ensures r.None? <==> forall k :: 0 <= k < |rooms| ==> rooms[k].id != id
    {
      RoomById(rooms, id)
    }

    /**
     * `findAvailable`: the type filter, then for each remaining room a scan
     * of the reservations that stops at the first one blocking it.
     */
    method FindAvailable(inDate: int, outDate: int, t: Option<RoomType>, allRes: seq<Reservation>)
      returns (available: seq<Room>)
      ensures available == Available(rooms, inDate, outDate, t, allRes)
    {
      var candidates := WithType(rooms, t);
      available := [];
      var i := 0;
      while i < |candidates|
        invariant 0 <= i <= |candidates|
        invariant available == Available(candidates[..i], inDate, outDate, t, allRes)
      {
        var room := candidates[i];
        var occupied := false;
        var j := 0;
        while j < |allRes|
          invariant 0 <= j <= |allRes|
          invariant !occupied
          invariant forall k :: 0 <= k < j ==> !Blocks(allRes[k], room, inDate, outDate)
        {
          var res := allRes[j];
          if res.status == Cancelled {
            j := j + 1;
            continue;
          }
          if res.roomId != room.id {
            j := j + 1;
            continue;
          }
          if DatesOverlap(inDate, outDate, res.checkIn, res.checkOut) {
            occupied := true;
            break;
          }
          j := j + 1;
        }
        assert occupied <==> Occupied(room, inDate, outDate, allRes);
        assert candidates[..i + 1][..i] == candidates[..i];
        assert HasType(room, t);
        if !occupied {
          available := available + [room];
        }
        i := i + 1;
      }
      assert candidates[..i] == candidates;
      AvailableWithType(rooms, inDate, outDate, t, allRes);
    }
  }
}
