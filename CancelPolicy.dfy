/**
 * The cancellation policy of the console's cancel command: a cancelled
 * booking cannot be cancelled again; a refund of the original payment is
 * attempted only when check-in is at least two days away; a refused refund
 * aborts the cancellation, and nothing is written.
 */
module CancelPolicy {
  import opened Base
  import opened Records
  import opened ReservationStorage
  import opened Payments

  /** Days before check-in from which a cancellation is refunded. */
  const REFUND_NOTICE_DAYS: int := 2

  datatype Rejection = AlreadyCancelled | RefundRefused

  datatype Decision = Reject(reason: Rejection) | Proceed(refundTxn: Option<string>)

  /**
   * The decision for a found reservation on day `today`; `random` and
   * `millis` are what the refund's transaction id is built from.
   */
  function Decide(res: Reservation, today: int, random: int, millis: int): (d: Decision)
    requires 0 <= random < 900000
    ensures res.status == Cancelled ==> d == Reject(AlreadyCancelled)
    ensures res.status == Confirmed && res.checkIn - today < REFUND_NOTICE_DAYS ==> d == Proceed(None)
    ensures res.status == Confirmed && res.checkIn - today >= REFUND_NOTICE_DAYS ==>
              (d == Reject(RefundRefused) <==> res.paymentTxnId.None? || res.paymentTxnId.value == "")
    ensures res.status == Confirmed && res.checkIn - today >= REFUND_NOTICE_DAYS
            && res.paymentTxnId.Some? && res.paymentTxnId.value != ""
            ==> d == Proceed(Some(GenTxn(Refund, random, millis)))
    ensures d.Proceed? && d.refundTxn.Some? ==>
              res.checkIn - today >= REFUND_NOTICE_DAYS && d.refundTxn == Some(GenTxn(Refund, random, millis))
    ensures d.Proceed? ==> TxnNormal(d.refundTxn)
  {
    if res.status == Cancelled then Reject(AlreadyCancelled)
    else
      var daysBefore := res.checkIn - today;
      if daysBefore >= REFUND_NOTICE_DAYS then
        var r := RefundPayment(res.paymentTxnId, res.totalAmount, random, millis);
        if !r.success then Reject(RefundRefused)
        else
          var t := r.txnId.value;
          assert t == GenTxn(Refund, random, millis);
          assert '"' !in t by {
            assert forall i :: 0 <= i < |t| ==> t[i] != '"';
          }
          Proceed(r.txnId)
      else Proceed(None)
  }

  /** A refund is issued exactly for a confirmed, paid-by-id booking cancelled at least two days ahead. */
  lemma DecideRefunds(res: Reservation, today: int, random: int, millis: int)
    requires 0 <= random < 900000
    ensures Decide(res, today, random, millis).Proceed? && Decide(res, today, random, millis).refundTxn.Some?
        <==> res.status == Confirmed && res.checkIn - today >= REFUND_NOTICE_DAYS
             && res.paymentTxnId.Some? && res.paymentTxnId.value != ""
  {
  }

  datatype CancelOutcome =
    | StorageFailed
    | NoSuchReservation
    | Rejected(reason: Rejection)
    | Done(refundTxn: Option<string>)

  /**
   * The cancel command without its console: look the booking up, apply the
   * policy, and only then ask the store to cancel. Every outcome other than
   * `Done` leaves the file as it was.
   */
  method HandleCancel(store: ReservationStore, id: Int64, today: int, random: int, millis: int)
    returns (outcome: CancelOutcome)
    requires 0 <= random < 900000
    modifies store
    ensures !outcome.Done? ==> store.lines == old(store.lines)
    ensures Load(old(store.lines)).Failure? ==> outcome == StorageFailed
    ensures Load(old(store.lines)).Success? ==>
      var rs := Load(old(store.lines)).value;
      match FirstWithId(rs, id)
      case None => outcome == NoSuchReservation
      case Some(res) =>
        var d := Decide(res, today, random, millis);
        && (d.Reject? ==> outcome == Rejected(d.reason))
        && (d.Proceed? ==> outcome == Done(d.refundTxn)
                           && Load(store.lines) == Success(CancelIn(rs, id, d.refundTxn)))
  {
    var found := store.FindById(id);
    if found.Failure? {
      return StorageFailed;
    }
    if found.value.None? {
      return NoSuchReservation;
    }
    var res := found.value.value;
    var d := Decide(res, today, random, millis);
    if d.Reject? {
      return Rejected(d.reason);
    }
    var cancelled := store.Cancel(id, d.refundTxn);
    if cancelled.Fail? {
      assert false;
      return StorageFailed;
    }
    outcome := Done(d.refundTxn);
  }
}
