/**
 * The seeded inventory and a booking-then-cancellation run against it, as a
 * client of the catalog, the payment processor and the store. Day numbers
 * stand for dates: the stay runs from day 100 to day 103.
 */
module Scenario {
  import opened Base
  import opened Decimal
  import opened Records
  import opened RoomCatalog
  import opened ReservationStorage
  import opened Payments
  import opened CancelPolicy

  /** The five rooms written to an absent rooms file. */
  function SeedRooms(): (rooms: seq<Room>)
    ensures |rooms| == 5
    ensures forall j, k :: 0 <= j < k < |rooms| ==> rooms[j].id != rooms[k].id
  {
    [Room(1, "101", Standard, 2499), Room(2, "102", Standard, 2499),
     Room(3, "201", Deluxe, 3999), Room(4, "202", Deluxe, 3999),
     Room(5, "301", Suite, 6999)]
  }

  /** Back-to-back stays on one room do not block each other; overlapping ones do. */
  lemma BackToBackBookable(r: Reservation)
    requires r.status == Confirmed && r.roomId == 3 && r.checkIn == 10 && r.checkOut == 15
    ensures SeedRooms()[2] in Available(SeedRooms(), 15, 20, Some(Deluxe), [r])
    ensures SeedRooms()[2] !in Available(SeedRooms(), 14, 20, Some(Deluxe), [r])
  {
    var room := SeedRooms()[2];
    AvailableMember(SeedRooms(), 15, 20, Some(Deluxe), [r], room);
    AvailableMember(SeedRooms(), 14, 20, Some(Deluxe), [r], room);
    assert Blocks([r][0], room, 14, 20);
  }

  /** While the booking holds room 3, the other deluxe room is still offered but room 3 is not. */
  lemma OfferWhileBooked(booking: Reservation)
    requires booking.status == Confirmed && booking.roomId == 3
    requires booking.checkIn == 100 && booking.checkOut == 103
    ensures SeedRooms()[2] !in Available(SeedRooms(), 100, 103, Some(Deluxe), [booking])
    ensures SeedRooms()[3] in Available(SeedRooms(), 100, 103, Some(Deluxe), [booking])
  {
    var room3, room4 := SeedRooms()[2], SeedRooms()[3];
    AvailableMember(SeedRooms(), 100, 103, Some(Deluxe), [booking], room3);
    AvailableMember(SeedRooms(), 100, 103, Some(Deluxe), [booking], room4);
    assert Blocks([booking][0], room3, 100, 103);
    assert !Occupied(room4, 100, 103, [booking]) by {
      assert forall k :: 0 <= k < 1 ==> [booking][k].roomId != room4.id;
    }
  }

  /** A cancelled booking frees its room again. */
  lemma OfferAfterCancel(cancelled: Reservation)
    requires cancelled.status == Cancelled
    ensures SeedRooms()[2] in Available(SeedRooms(), 100, 103, Some(Deluxe), [cancelled])
  {
    AvailableMember(SeedRooms(), 100, 103, Some(Deluxe), [cancelled], SeedRooms()[2]);
  }

  /** The card used below passes the Luhn check: its sum is 30. */
  lemma TestCardPasses()
    ensures LuhnValid("4111111111111111")
  {
    var card := "4111111111111111";
    assert card[..0] == [];
    assert card[..1][..0] == card[..0];
    assert LuhnSum(card[..1], true) == 8;
    assert card[..2][..1] == card[..1];
    assert LuhnSum(card[..2], false) == 9;
    assert card[..3][..2] == card[..2];
    assert LuhnSum(card[..3], true) == 11;
    assert card[..4][..3] == card[..3];
    assert LuhnSum(card[..4], false) == 12;
    assert card[..5][..4] == card[..4];
    assert LuhnSum(card[..5], true) == 14;
    assert card[..6][..5] == card[..5];
    assert LuhnSum(card[..6], false) == 15;
    assert card[..7][..6] == card[..6];
    assert LuhnSum(card[..7], true) == 17;
    assert card[..8][..7] == card[..7];
    assert LuhnSum(card[..8], false) == 18;
    assert card[..9][..8] == card[..8];
    assert LuhnSum(card[..9], true) == 20;
    assert card[..10][..9] == card[..9];
    assert LuhnSum(card[..10], false) == 21;
    assert card[..11][..10] == card[..10];
    assert LuhnSum(card[..11], true) == 23;
    assert card[..12][..11] == card[..11];
    assert LuhnSum(card[..12], false) == 24;
    assert card[..13][..12] == card[..12];
    assert LuhnSum(card[..13], true) == 26;
    assert card[..14][..13] == card[..13];
    assert LuhnSum(card[..14], false) == 27;
    assert card[..15][..14] == card[..14];
    assert LuhnSum(card[..15], true) == 29;
    assert card[..16][..15] == card[..15];
    assert LuhnSum(card[..16], false) == 30;
    assert card[..16] == card;
  }

  /**
   * Book room 3 for three nights on an empty store, paying with a card that
   * passes the check; `random` and `millis` are the processor's draws. The
   * new booking is 1001, paid and confirmed, and is what the store reads back.
   */
  method Book(store: ReservationStore, guest: string, card: string, random: int, millis: int, now: int)
    returns (booking: Reservation)
    requires store.lines == []
    requires forall i :: 0 <= i < |guest| ==> guest[i] != '"'
    requires |card| == 16 && AllDigits(card) && LuhnValid(card)
    requires 0 <= random < 900000
    modifies store
    ensures booking.id == 1001 && booking.totalAmount == 11997 && booking.roomId == 3
    ensures booking.checkIn == 100 && booking.checkOut == 103
    ensures booking.status == Confirmed && booking.paymentStatus == Paid
    ensures booking.paymentTxnId == Some(GenTxn(Payment, random, millis))
    ensures Load(store.lines) == Success([booking])
  {
    var payment := Charge(card, 3 * 3999, random, millis);
    assert Load(store.lines) == Success([]);
    var created := store.Create(3, guest, 100, 103, 3 * 3999, payment.txnId, now);
    booking := created.value;
    assert IsNormal(booking) by {
      var t := payment.txnId.value;
      assert forall i :: 0 <= i < |t| ==> t[i] != '"';
      assert '"' !in guest;
    }
    NormalizeIdentity(booking);
    assert [] + [booking] == [booking];
  }

  /**
   * Cancel the stored booking on day 90, ten days before check-in: the refund
   * goes through, and the store reads the booking back cancelled and refunded.
   */
  method CancelAhead(store: ReservationStore, booking: Reservation, random: int, millis: int)
    returns (cancelled: Reservation)
    requires Load(store.lines) == Success([booking])
    requires booking.id == 1001 && booking.checkIn == 100 && booking.status == Confirmed
    requires booking.paymentTxnId.Some? && booking.paymentTxnId.value != ""
    requires 0 <= random < 900000
    modifies store
    ensures cancelled.status == Cancelled && cancelled.paymentStatus == Refunded
    ensures cancelled.refundTxnId == Some(GenTxn(Refund, random, millis))
    ensures Load(store.lines) == Success([cancelled])
  {
    var outcome := HandleCancel(store, 1001, 90, random, millis);
    assert FirstWithId([booking], 1001) == Some(booking);
    cancelled := CancelRecord(booking, outcome.refundTxn);
    assert CancelIn([booking], 1001, outcome.refundTxn) == [cancelled];
  }

  /**
   * The whole run, for any draws of the processor: room 3 is offered, booked,
   * no longer offered, cancelled ten days ahead with a refund, and offered again.
   */
  method BookAndCancel(payRandom: int, payMillis: int, refundRandom: int, refundMillis: int, now: int)
    requires 0 <= payRandom < 900000 && 0 <= refundRandom < 900000
  {
    var catalog := new Catalog(SeedRooms());
    var store := new ReservationStore([]);
    var room3 := SeedRooms()[2];

    var before := catalog.FindAvailable(100, 103, Some(Deluxe), []);
    AvailableMember(SeedRooms(), 100, 103, Some(Deluxe), [], room3);
    assert room3 in before;

    TestCardPasses();
    var booking := Book(store, "Asha Rao", "4111111111111111", payRandom, payMillis, now);
    var loaded := store.LoadAll();
    var during := catalog.FindAvailable(100, 103, Some(Deluxe), loaded.value);
    OfferWhileBooked(booking);
    assert room3 !in during && SeedRooms()[3] in during;

    var cancelled := CancelAhead(store, booking, refundRandom, refundMillis);
    loaded := store.LoadAll();
    var after := catalog.FindAvailable(100, 103, Some(Deluxe), loaded.value);
    OfferAfterCancel(cancelled);
    assert room3 in after;
  }
}
