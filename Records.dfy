/**
 * Rooms and reservations, and the eleven-field line a reservation is stored
 * as: id, room id, guest, check-in, check-out, amount, creation time,
 * payment transaction, payment status, status, refund transaction.
 *
 * Dates are day numbers, the creation time an instant number and amounts
 * whole currency units; each is written in decimal.
 */
module Records {
  import opened Base
  import opened CsvCodec
  import opened Decimal

  datatype RoomType = Standard | Deluxe | Suite
  datatype ResStatus = Confirmed | Cancelled
  datatype PayStatus = Paid | Refunded | Failed

  /** A room of the static inventory. */
  datatype Room = Room(id: Int32, number: string, roomType: RoomType, pricePerNight: int)

  /** One booking. Absent transaction ids are `None`. */
  datatype Reservation = Reservation(
    id: Int64,
    roomId: Int32,
    guestName: string,
    checkIn: int,
    checkOut: int,
    totalAmount: int,
    createdAt: int,
    paymentTxnId: Option<string>,
    paymentStatus: PayStatus,
    status: ResStatus,
    refundTxnId: Option<string>)

  const FIELD_COUNT: nat := 11

  function PayStatusName(p: PayStatus): string {
    match p
    case Paid => "PAID"
    case Refunded => "REFUNDED"
    case Failed => "FAILED"
  }

  function ResStatusName(s: ResStatus): string {
    match s
    case Confirmed => "CONFIRMED"
    case Cancelled => "CANCELLED"
  }

  /** `PayStatus.valueOf`: only an exact constant name is accepted. */
  function ParsePayStatus(s: string): (r: Option<PayStatus>)
    ensures r.Some? ==> PayStatusName(r.value) == s
    ensures forall p: PayStatus :: s == PayStatusName(p) ==> r == Some(p)
  {
    if s == "PAID" then Some(Paid)
    else if s == "REFUNDED" then Some(Refunded)
    else if s == "FAILED" then Some(Failed)
    else None
  }

  /** `ResStatus.valueOf`: only an exact constant name is accepted. */
  function ParseResStatus(s: string): (r: Option<ResStatus>)
    ensures r.Some? ==> ResStatusName(r.value) == s
    ensures forall t: ResStatus :: s == ResStatusName(t) ==> r == Some(t)
  {
    if s == "CONFIRMED" then Some(Confirmed)
    else if s == "CANCELLED" then Some(Cancelled)
    else None
  }

  /** The eleven fields of a reservation line, before quoting. */
  function Fields(r: Reservation): (fs: seq<string>)
    ensures |fs| == FIELD_COUNT
  {
    [IntToString(r.id), IntToString(r.roomId), r.guestName,
     IntToString(r.checkIn), IntToString(r.checkOut), IntToString(r.totalAmount),
     IntToString(r.createdAt), EmptyIfNull(r.paymentTxnId), PayStatusName(r.paymentStatus),
     ResStatusName(r.status), EmptyIfNull(r.refundTxnId)]
  }

  /** The stored line of a reservation. */
  function Encode(r: Reservation): string {
    Join(Fields(r))
  }

  /**
   * A reservation from its split fields. Fewer than eleven fields, or a field
   * that does not parse, make the record malformed; fields past the eleventh
   * are ignored.
   */
  function DecodeFields(p: seq<string>): Option<Reservation> {
    if |p| < FIELD_COUNT then None
    else
      var id :- ParseLong(p[0]);
      var roomId :- ParseInt32(p[1]);
      var checkIn :- ParseInt(p[3]);
      var checkOut :- ParseInt(p[4]);
      var amount :- ParseInt(p[5]);
      var created :- ParseInt(p[6]);
      var payStatus :- ParsePayStatus(p[8]);
      var status :- ParseResStatus(p[9]);
      Some(Reservation(id, roomId, p[2], checkIn, checkOut, amount, created,
                       NullIfEmpty(p[7]), payStatus, status, NullIfEmpty(p[10])))
  }

  /** The reservation stored on a line, or `None` for a malformed line. */
  function Decode(line: string): Option<Reservation> {
    DecodeFields(Split(line))
  }

  /** `Reservation.toCsv`, through the encoder's builder loop. */
  method ToCsv(r: Reservation) returns (line: string)
    ensures line == Encode(r)
  {
    line := JoinCsv(Fields(r));
  }

  /** `Reservation.fromCsv`, through the decoder's character loop. */
  method FromCsv(line: string) returns (r: Option<Reservation>)
    ensures r == Decode(line)
  {
    var p := SplitCsv(line);
    r := DecodeFields(p);
  }

  // ---------------------------------------------------------------------------
  // What survives a write and a read

  /** A transaction id as it comes back from the file. */
  function NormalizeTxn(o: Option<string>): (r: Option<string>)
    ensures r.Some? ==> r.value != "" && QUOTE !in r.value
  {
    NullIfEmpty(StripQuotes(EmptyIfNull(o)))
  }

  /** A reservation as it comes back from the file: quotes gone from its text, empty ids absent. */
  function Normalize(r: Reservation): Reservation {
    r.(guestName := StripQuotes(r.guestName),
       paymentTxnId := NormalizeTxn(r.paymentTxnId),
       refundTxnId := NormalizeTxn(r.refundTxnId))
  }

  predicate TxnNormal(o: Option<string>) {
    o.Some? ==> o.value != "" && QUOTE !in o.value
  }

  /** A reservation that reading can produce. */
  predicate IsNormal(r: Reservation) {
    QUOTE !in r.guestName && TxnNormal(r.paymentTxnId) && TxnNormal(r.refundTxnId)
  }

  lemma NormalizeTxnIdentity(o: Option<string>)
    ensures NormalizeTxn(o) == o <==> TxnNormal(o)
  {
    if o.Some? {
      StripQuotesIdentity(o.value);
    }
  }

  /** Normalising changes exactly the reservations that reading cannot produce. */
  lemma NormalizeIdentity(r: Reservation)
    ensures Normalize(r) == r <==> IsNormal(r)
  {
    StripQuotesIdentity(r.guestName);
    NormalizeTxnIdentity(r.paymentTxnId);
    NormalizeTxnIdentity(r.refundTxnId);
  }

  lemma NumberFieldPlain(n: int)
    ensures QUOTE !in IntToString(n) && COMMA !in IntToString(n)
    ensures StripQuotes(IntToString(n)) == IntToString(n)
  {
    var s := IntToString(n);
    assert forall i :: 0 <= i < |s| ==> s[i] != QUOTE && s[i] != COMMA;
    StripQuotesIdentity(s);
  }

  lemma PayNamePlain(p: PayStatus)
    ensures StripQuotes(PayStatusName(p)) == PayStatusName(p)
  {
    var n := PayStatusName(p);
    assert forall i :: 0 <= i < |n| ==> n[i] != QUOTE;
    StripQuotesIdentity(n);
  }

  lemma ResNamePlain(t: ResStatus)
    ensures StripQuotes(ResStatusName(t)) == ResStatusName(t)
  {
    var n := ResStatusName(t);
    assert forall i :: 0 <= i < |n| ==> n[i] != QUOTE;
    StripQuotesIdentity(n);
  }

  /** Decoding fields that each parse to the parts of a reservation gives that reservation. */
  lemma DecodeFieldsParsed(p: seq<string>, r: Reservation)
    requires |p| >= FIELD_COUNT
    requires ParseLong(p[0]) == Some(r.id) && ParseInt32(p[1]) == Some(r.roomId)
    requires p[2] == r.guestName
    requires ParseInt(p[3]) == Some(r.checkIn) && ParseInt(p[4]) == Some(r.checkOut)
    requires ParseInt(p[5]) == Some(r.totalAmount) && ParseInt(p[6]) == Some(r.createdAt)
    requires NullIfEmpty(p[7]) == r.paymentTxnId && NullIfEmpty(p[10]) == r.refundTxnId
    requires ParsePayStatus(p[8]) == Some(r.paymentStatus) && ParseResStatus(p[9]) == Some(r.status)
    ensures DecodeFields(p) == Some(r)
  {
  }

  /**
   * Reading the line written for a reservation gives the reservation back,
   * except that quotes vanish from the guest name and the transaction ids and
   * a present empty transaction id comes back absent.
   */
  lemma DecodeEncode(r: Reservation)
    ensures Decode(Encode(r)) == Some(Normalize(r))
  {
    var fs := Fields(r);
    SplitJoin(fs);
    var p := Split(Encode(r));
    assert p == StripAll(fs);
    assert p[0] == StripQuotes(IntToString(r.id)) && p[1] == StripQuotes(IntToString(r.roomId));
    assert p[3] == StripQuotes(IntToString(r.checkIn)) && p[4] == StripQuotes(IntToString(r.checkOut));
    assert p[5] == StripQuotes(IntToString(r.totalAmount)) && p[6] == StripQuotes(IntToString(r.createdAt));
    assert p[8] == StripQuotes(PayStatusName(r.paymentStatus)) && p[9] == StripQuotes(ResStatusName(r.status));
    assert p[2] == StripQuotes(r.guestName);
    assert p[7] == StripQuotes(EmptyIfNull(r.paymentTxnId));
    assert p[10] == StripQuotes(EmptyIfNull(r.refundTxnId));
    NumberFieldPlain(r.id);
    NumberFieldPlain(r.roomId);
    NumberFieldPlain(r.checkIn);
    NumberFieldPlain(r.checkOut);
    NumberFieldPlain(r.totalAmount);
    NumberFieldPlain(r.createdAt);
    PayNamePlain(r.paymentStatus);
    ResNamePlain(r.status);
    ParseWidthsToString(r.id, r.roomId);
    ParseIntToString(r.checkIn);
    ParseIntToString(r.checkOut);
    ParseIntToString(r.totalAmount);
    ParseIntToString(r.createdAt);
    DecodeFieldsParsed(p, Normalize(r));
  }

  /** Every reservation read from a line is one that reading can produce. */
  lemma DecodeIsNormal(line: string)
    requires Decode(line).Some?
    ensures IsNormal(Decode(line).value)
  {
    var p := Split(line);
    SplitNoQuotes(line);
    assert QUOTE !in p[2] && QUOTE !in p[7] && QUOTE !in p[10];
  }

  /** Writing back what was read and reading it again gives the same reservation. */
  lemma DecodeEncodeDecode(line: string)
    requires Decode(line).Some?
    ensures Decode(Encode(Decode(line).value)) == Decode(line)
  {
    var r := Decode(line).value;
    DecodeIsNormal(line);
    DecodeEncode(r);
    NormalizeIdentity(r);
  }

  /** For a reservation without quotes or present-but-empty ids the line round-trips exactly. */
  lemma DecodeEncodeNormal(r: Reservation)
    requires IsNormal(r)
    ensures Decode(Encode(r)) == Some(r)
  {
    DecodeEncode(r);
    NormalizeIdentity(r);
  }

  /** A guest name with a quote, such as `O"Neil`, comes back without it (`ONeil`). */
  lemma GuestQuoteLost(r: Reservation, a: string, b: string)
    requires QUOTE !in a && QUOTE !in b && r.guestName == a + [QUOTE] + b
    ensures Decode(Encode(r)).Some?
    ensures Decode(Encode(r)).value.guestName == a + b
    ensures Decode(Encode(r)) != Some(r)
  {
    DecodeEncode(r);
    StripOneQuote(a, b);
    assert |a + b| < |r.guestName|;
  }

  /** A stored line always holds a comma, so it is never blank. */
  lemma EncodeHasComma(r: Reservation)
    ensures COMMA in Encode(r)
  {
    var fs := Fields(r);
    var init := fs[..FIELD_COUNT - 1];
    assert Encode(r) == Join(init) + [COMMA] + EncodeField(fs[FIELD_COUNT - 1]);
    assert Encode(r)[|Join(init)|] == COMMA;
  }
}
