/**
 * The reservation store: the reservations file, one record per line, and
 * the operations that read it whole, append a new booking to it and rewrite
 * it with one booking cancelled.
 */
module ReservationStorage {
  import opened Base
  import opened CsvCodec
  import opened Records

  datatype StoreError = MalformedRecord | NotFound

  // ---------------------------------------------------------------------------
  // Reading the file

  /** `Character.isWhitespace` on the characters below 128. */
  predicate IsWhitespace(c: char) {
    c == ' ' || c == '\t' || c == '\n' || c == '\r' || c == '\U{B}' || c == '\U{C}'
    || ('\U{1C}' <= c <= '\U{1F}')
  }

  /** `String.isBlank`: the line is empty or holds only whitespace. */
  predicate IsBlank(line: string) {
    forall i :: 0 <= i < |line| ==> IsWhitespace(line[i])
  }

  /** The records of the file: blank lines skipped, and any malformed line fails the whole read. */
  function Load(lines: seq<string>): (r: Result<seq<Reservation>, StoreError>)
    ensures r.Failure? ==> r.error == MalformedRecord
    ensures r.Success? ==> |r.value| <= |lines|
  {
    if lines == [] then Success([])
    else
      var line := lines[|lines| - 1];
      match Load(lines[..|lines| - 1])
      case Failure(e) => Failure(e)
      case Success(rs) =>
        if IsBlank(line) then Success(rs)
        else match Decode(line)
          case None => Failure(MalformedRecord)
          case Some(r) => Success(rs + [r])
  }

  /** Once a prefix of the file fails to read, so does the whole file. */
  lemma {:induction false} LoadFailureExtends(lines: seq<string>, n: nat)
    requires n <= |lines|
    requires Load(lines[..n]).Failure?
    ensures Load(lines).Failure?
    decreases |lines|
  {
    if n < |lines| {
      var init := lines[..|lines| - 1];
      assert init[..n] == lines[..n];
      LoadFailureExtends(init, n);
    } else {
      assert lines[..n] == lines;
    }
  }

  /** Every record read from the file is one that reading can produce. */
  lemma {:induction false} LoadIsNormal(lines: seq<string>)
    requires Load(lines).Success?
    ensures forall k :: 0 <= k < |Load(lines).value| ==> IsNormal(Load(lines).value[k])
  {
    if lines != [] {
      var line := lines[|lines| - 1];
      LoadIsNormal(lines[..|lines| - 1]);
      if !IsBlank(line) {
        DecodeIsNormal(line);
      }
    }
  }

  /** A non-blank line that does not decode, anywhere in the file, fails the whole read. */
  lemma LoadFailsOnMalformed(lines: seq<string>, k: nat)
    requires k < |lines| && !IsBlank(lines[k]) && Decode(lines[k]).None?
    ensures Load(lines).Failure?
  {
    var pre := lines[..k + 1];
    assert pre[..k] == lines[..k];
    LoadFailureExtends(lines, k + 1);
  }

  /** When the read succeeds, every non-blank line of the file decodes. */
  lemma LoadSuccessDecodesEveryLine(lines: seq<string>)
    requires Load(lines).Success?
    ensures forall k :: 0 <= k < |lines| && !IsBlank(lines[k]) ==> Decode(lines[k]).Some?
  {
    forall k | 0 <= k < |lines| && !IsBlank(lines[k])
      ensures Decode(lines[k]).Some?
    {
      if Decode(lines[k]).None? {
        LoadFailsOnMalformed(lines, k);
      }
    }
  }

  /** A blank line adds nothing to what the file reads as. */
  lemma LoadSkipsBlank(lines: seq<string>, b: string)
    requires IsBlank(b)
    ensures Load(lines + [b]) == Load(lines)
  {
    assert (lines + [b])[..|lines|] == lines;
  }

  /** The non-blank lines of the file, in file order. */
  function NonBlank(lines: seq<string>): (nb: seq<string>)
    ensures |nb| <= |lines|
    ensures forall i :: 0 <= i < |nb| ==> !IsBlank(nb[i]) && nb[i] in lines
  {
    if lines == [] then []
    else
      var init, line := lines[..|lines| - 1], lines[|lines| - 1];
      assert forall s :: s in init ==> s in lines;
      NonBlank(init) + (if IsBlank(line) then [] else [line])
  }

  /** Every line of `nb` decodes. */
  predicate AllDecode(nb: seq<string>) {
    forall i :: 0 <= i < |nb| ==> Decode(nb[i]).Some?
  }

  /** `rs` holds the records decoded from `nb`, one per line, in order. */
  predicate DecodedAs(nb: seq<string>, rs: seq<Reservation>) {
    |rs| == |nb| && forall i :: 0 <= i < |nb| ==> Decode(nb[i]) == Some(rs[i])
  }

  /**
   * The read succeeds exactly when every non-blank line decodes, and then it
   * is the decoded non-blank lines, one record each, in file order.
   */
  lemma {:induction false} LoadIsDecodedNonBlank(lines: seq<string>)
    ensures Load(lines).Success? <==> AllDecode(NonBlank(lines))
    ensures Load(lines).Success? ==> DecodedAs(NonBlank(lines), Load(lines).value)
    decreases |lines|
  {
    if lines != [] {
      var init, line := lines[..|lines| - 1], lines[|lines| - 1];
      LoadIsDecodedNonBlank(init);
      var nb0 := NonBlank(init);
      if !IsBlank(line) {
        var nb := nb0 + [line];
        assert NonBlank(lines) == nb;
        assert AllDecode(nb) <==> AllDecode(nb0) && Decode(line).Some? by {
          assert forall i :: 0 <= i < |nb0| ==> nb[i] == nb0[i];
          assert nb[|nb0|] == line;
        }
        if Load(lines).Success? {
          var rs := Load(init).value;
          assert Load(lines).value == rs + [Decode(line).value];
          assert forall i :: 0 <= i < |nb0| ==> nb[i] == nb0[i];
        }
      } else {
        assert NonBlank(lines) == nb0;
      }
    }
  }

  /** A stored record line is never blank. */
  lemma EncodeNotBlank(r: Reservation)
    ensures !IsBlank(Encode(r))
  {
    EncodeHasComma(r);
    var line := Encode(r);
    var i :| 0 <= i < |line| && line[i] == COMMA;
    assert !IsWhitespace(line[i]);
  }

  /** Appending the line of a record adds that record, as reading gives it back, at the end. */
  lemma LoadAppend(lines: seq<string>, r: Reservation)
    requires Load(lines).Success?
    ensures Load(lines + [Encode(r)]) == Success(Load(lines).value + [Normalize(r)])
  {
    var all := lines + [Encode(r)];
    assert all[..|all| - 1] == lines;
    EncodeNotBlank(r);
    DecodeEncode(r);
  }

  // ---------------------------------------------------------------------------
  // Writing the file

  /** The lines written for a sequence of records, one per record. */
  function EncodeAll(rs: seq<Reservation>): (ls: seq<string>)
    ensures |ls| == |rs|
  {
    seq(|rs|, k requires 0 <= k < |rs| => Encode(rs[k]))
  }

  function NormalizeAll(rs: seq<Reservation>): (ns: seq<Reservation>)
    ensures |ns| == |rs|
    ensures forall k :: 0 <= k < |rs| ==> ns[k] == Normalize(rs[k])
  {
    seq(|rs|, k requires 0 <= k < |rs| => Normalize(rs[k]))
  }

  lemma EncodeAllSnoc(rs: seq<Reservation>, r: Reservation)
    ensures EncodeAll(rs + [r]) == EncodeAll(rs) + [Encode(r)]
  {
    var a, b := EncodeAll(rs + [r]), EncodeAll(rs) + [Encode(r)];
    assert forall k :: 0 <= k < |rs| ==> a[k] == Encode((rs + [r])[k]) == b[k];
  }

  lemma NormalizeAllSnoc(rs: seq<Reservation>, r: Reservation)
    ensures NormalizeAll(rs + [r]) == NormalizeAll(rs) + [Normalize(r)]
  {
  }

  /** Reading back a rewritten file gives each record as reading gives it back, in order. */
  lemma {:induction false} LoadEncodeAll(rs: seq<Reservation>)
    ensures Load(EncodeAll(rs)) == Success(NormalizeAll(rs))
  {
    if rs != [] {
      var init := rs[..|rs| - 1];
      var last := rs[|rs| - 1];
      assert rs == init + [last];
      EncodeAllSnoc(init, last);
      NormalizeAllSnoc(init, last);
      LoadEncodeAll(init);
      LoadAppend(EncodeAll(init), last);
    }
  }

  // ---------------------------------------------------------------------------
  // Identifiers

  predicate HasId(rs: seq<Reservation>, id: Int64) {
    exists k :: 0 <= k < |rs| && rs[k].id == id
  }

  /** The largest id of a non-empty sequence of records. */
  function MaxId(rs: seq<Reservation>): (m: Int64)
    requires rs != []
    ensures HasId(rs, m)
    ensures forall k :: 0 <= k < |rs| ==> rs[k].id <= m
  {
    if |rs| == 1 then rs[0].id
    else
      var m := MaxId(rs[..|rs| - 1]);
      assert forall k :: 0 <= k < |rs| - 1 ==> rs[k] == rs[..|rs| - 1][k];
      if rs[|rs| - 1].id > m then rs[|rs| - 1].id else m
  }

  /**
   * The id `create` gives the next booking: one more than the largest id, or
   * 1001 for an empty store, in 64-bit arithmetic.
   */
  function NextId(rs: seq<Reservation>): (n: Int64)
    ensures rs == [] ==> n == 1001
    ensures rs != [] && MaxId(rs) < INT64_MAX ==> n == MaxId(rs) + 1
    ensures (forall k :: 0 <= k < |rs| ==> rs[k].id < INT64_MAX)
            ==> forall k :: 0 <= k < |rs| ==> rs[k].id < n
  {
    Inc64(if rs == [] then 1000 else MaxId(rs))
  }

  /** With a record already at the largest 64-bit id, the next id wraps around to the smallest. */
  lemma NextIdWraps(rs: seq<Reservation>)
    requires HasId(rs, INT64_MAX as Int64)
    ensures NextId(rs) == INT64_MIN
  {
  }

  /** Ids that grow strictly along the file. */
  predicate IdsIncreasing(rs: seq<Reservation>) {
    forall j, k :: 0 <= j < k < |rs| ==> rs[j].id < rs[k].id
  }

  /** A record given the next id keeps the ids growing, as long as the largest id is not the 64-bit maximum. */
  lemma CreateKeepsIdsIncreasing(rs: seq<Reservation>, r: Reservation)
    requires IdsIncreasing(rs)
    requires forall k :: 0 <= k < |rs| ==> rs[k].id < INT64_MAX
    requires r.id == NextId(rs)
    ensures IdsIncreasing(rs + [r])
  {
  }

  /** The first record with the given id. */
  function FirstWithId(rs: seq<Reservation>, id: Int64): (r: Option<Reservation>)
    ensures r.None? <==> !HasId(rs, id)
    ensures r.Some? ==> exists k :: 0 <= k < |rs| && rs[k] == r.value && r.value.id == id
                                    && forall j :: 0 <= j < k ==> rs[j].id != id
  {
    if rs == [] then None
    else if rs[0].id == id then Some(rs[0])
    else
      var r := FirstWithId(rs[1..], id);
      assert forall k :: 1 <= k < |rs| ==> rs[k] == rs[1..][k - 1];
      r
  }

  /** With growing ids, the record found is the only one with that id. */
  lemma FirstWithIdUnique(rs: seq<Reservation>, id: Int64, k: nat)
    requires IdsIncreasing(rs)
    requires k < |rs| && rs[k].id == id
    ensures FirstWithId(rs, id) == Some(rs[k])
  {
  }

  // ---------------------------------------------------------------------------
  // Cancellation

  /**
   * A record as cancellation leaves it: cancelled, refunded when a refund
   * transaction is given, with that transaction recorded; all else kept.
   */
  function CancelRecord(r: Reservation, refundTxn: Option<string>): (c: Reservation)
    ensures c.id == r.id && c.roomId == r.roomId && c.guestName == r.guestName
    ensures c.checkIn == r.checkIn && c.checkOut == r.checkOut && c.totalAmount == r.totalAmount
    ensures c.createdAt == r.createdAt && c.paymentTxnId == r.paymentTxnId
    ensures c.status == Cancelled && c.refundTxnId == refundTxn
    ensures c.paymentStatus == if refundTxn.Some? then Refunded else r.paymentStatus
  {
    Reservation(r.id, r.roomId, r.guestName, r.checkIn, r.checkOut, r.totalAmount, r.createdAt,
                r.paymentTxnId, if refundTxn.Some? then Refunded else r.paymentStatus,
                Cancelled, refundTxn)
  }

  /** A record as `cancel` writes it back: cancelled when it carries `id`, untouched otherwise. */
  function CancelMatching(r: Reservation, id: Int64, refundTxn: Option<string>): Reservation {
    if r.id == id then CancelRecord(r, refundTxn) else r
  }

  /** The records with every one carrying `id` cancelled, the others untouched, in the same order. */
  function CancelIn(rs: seq<Reservation>, id: Int64, refundTxn: Option<string>): (cs: seq<Reservation>)
    ensures |cs| == |rs|
    ensures forall k :: 0 <= k < |rs| && rs[k].id != id ==> cs[k] == rs[k]
    ensures forall k :: 0 <= k < |rs| && rs[k].id == id ==> cs[k] == CancelRecord(rs[k], refundTxn)
  {
    seq(|rs|, k requires 0 <= k < |rs| => CancelMatching(rs[k], id, refundTxn))
  }

  /** Cancellation keeps every id where it was, so growing ids keep growing. */
  lemma CancelKeepsIdsIncreasing(rs: seq<Reservation>, id: Int64, refundTxn: Option<string>)
    requires IdsIncreasing(rs)
    ensures IdsIncreasing(CancelIn(rs, id, refundTxn))
  {
  }

  /** Reading back a cancelled file loses nothing when the records came from reading and the refund id is stored as given. */
  lemma NormalizeCancelIn(rs: seq<Reservation>, id: Int64, refundTxn: Option<string>)
    requires forall k :: 0 <= k < |rs| ==> IsNormal(rs[k])
    requires TxnNormal(refundTxn)
    ensures NormalizeAll(CancelIn(rs, id, refundTxn)) == CancelIn(rs, id, refundTxn)
  {
    var cs := CancelIn(rs, id, refundTxn);
    forall k | 0 <= k < |cs| ensures Normalize(cs[k]) == cs[k] {
      NormalizeIdentity(rs[k]);
      NormalizeIdentity(cs[k]);
    }
  }

  /** What reading gives back after `cancel` rewrites a readable file. */
  lemma RewriteReadsBack(lines: seq<string>, id: Int64, refundTxn: Option<string>)
    requires Load(lines).Success?
    ensures var cs := CancelIn(Load(lines).value, id, refundTxn);
      && Load(EncodeAll(cs)) == Success(NormalizeAll(cs))
      && (TxnNormal(refundTxn) ==> Load(EncodeAll(cs)) == Success(cs))
      && (IdsIncreasing(Load(lines).value) ==> IdsIncreasing(NormalizeAll(cs)))
  {
    var rs := Load(lines).value;
    var cs := CancelIn(rs, id, refundTxn);
    LoadEncodeAll(cs);
    if TxnNormal(refundTxn) {
      LoadIsNormal(lines);
      NormalizeCancelIn(rs, id, refundTxn);
    }
    if IdsIncreasing(rs) {
      CancelKeepsIdsIncreasing(rs, id, refundTxn);
      assert forall k :: 0 <= k < |cs| ==> NormalizeAll(cs)[k].id == cs[k].id;
    }
  }

  /** One step of the rewrite loop of `cancel`: the line written for `r`, and whether `r` carries `id`. */
  method CancelLine(r: Reservation, id: Int64, refundTxn: Option<string>) returns (line: string, hit: bool)
    ensures hit <==> r.id == id
    ensures line == Encode(CancelMatching(r, id, refundTxn))
  {
    hit := r.id == id;
    if hit {
      var updated := Reservation(r.id, r.roomId, r.guestName, r.checkIn, r.checkOut,
                                 r.totalAmount, r.createdAt, r.paymentTxnId,
                                 if refundTxn.Some? then Refunded else r.paymentStatus,
                                 Cancelled, refundTxn);
      line := ToCsv(updated);
    } else {
      line := ToCsv(r);
    }
  }

  /**
   * The rewrite loop of `cancel`: the line of every record, the records
   * carrying `id` cancelled first, and whether any record carried `id`.
   */
  method RewriteForCancel(rs: seq<Reservation>, id: Int64, refundTxn: Option<string>)
    returns (out: seq<string>, found: bool)
    ensures found <==> HasId(rs, id)
    ensures out == EncodeAll(CancelIn(rs, id, refundTxn))
  {
    ghost var cs := CancelIn(rs, id, refundTxn);
    out := [];
    found := false;
    var i := 0;
    while i < |rs|
      invariant 0 <= i <= |rs|
      invariant found <==> exists k :: 0 <= k < i && rs[k].id == id
      invariant out == EncodeAll(cs[..i])
    {
      var line, hit := CancelLine(rs[i], id, refundTxn);
      assert cs[..i + 1] == cs[..i] + [cs[i]];
      EncodeAllSnoc(cs[..i], cs[i]);
      found := found || hit;
      out := out + [line];
      i := i + 1;
    }
    assert cs[..i] == cs;
  }

  // ---------------------------------------------------------------------------
  // The store

  /** The reservation store; `lines` is the content of the reservations file. */
  class ReservationStore {
    var lines: seq<string>

    constructor (lines: seq<string>)
      ensures this.lines == lines
    {
      this.lines := lines;
    }

    /** `loadAll`: every record of the file, in file order, or a malformed-record failure. */
    method LoadAll() returns (res: Result<seq<Reservation>, StoreError>)
      ensures res == Load(lines)
    {
      var out: seq<Reservation> := [];
      var i := 0;
      while i < |lines|
        invariant 0 <= i <= |lines|
        invariant Load(lines[..i]) == Success(out)
      {
        var line := lines[i];
        assert lines[..i + 1][..i] == lines[..i];
        if IsBlank(line) {
          i := i + 1;
          continue;
        }
        var r := FromCsv(line);
        if r.None? {
          LoadFailureExtends(lines, i + 1);
          return Failure(MalformedRecord);
        }
        out := out + [r.value];
        i := i + 1;
      }
      assert lines[..i] == lines;
      res := Success(out);
    }

    /**
     * `create`: a confirmed, paid booking with the next id, appended as the
     * last line. The file is left alone when it cannot be read.
     */
    method Create(roomId: Int32, guest: string, checkIn: int, checkOut: int, amount: int,
                  payTxn: Option<string>, now: int)
      returns (res: Result<Reservation, StoreError>)
      modifies this
      ensures Load(old(lines)).Failure? ==> res == Failure(MalformedRecord) && lines == old(lines)
      ensures Load(old(lines)).Success? ==>
        var rs := Load(old(lines)).value;
        && res.Success?
        && res.value == Reservation(NextId(rs), roomId, guest, checkIn, checkOut, amount, now,
                                    payTxn, Paid, Confirmed, None)
        && lines == old(lines) + [Encode(res.value)]
        && Load(lines) == Success(rs + [Normalize(res.value)])
      ensures Load(old(lines)).Success? && IdsIncreasing(Load(old(lines)).value)
              && (forall k :: 0 <= k < |Load(old(lines)).value| ==> Load(old(lines)).value[k].id < INT64_MAX)
              ==> Load(lines).Success? && IdsIncreasing(Load(lines).value)
    {
      var all := LoadAll();
      if all.Failure? {
        return Failure(all.error);
      }
      var rs := all.value;
      var r := Reservation(NextId(rs), roomId, guest, checkIn, checkOut, amount, now,
                           payTxn, Paid, Confirmed, None);
      var line := ToCsv(r);
      lines := lines + [line];
      LoadAppend(old(lines), r);
      if IdsIncreasing(rs) && forall k :: 0 <= k < |rs| ==> rs[k].id < INT64_MAX {
        CreateKeepsIdsIncreasing(rs, Normalize(r));
      }
      res := Success(r);
    }

    /**
     * `cancel`: the whole file rewritten with every record carrying `id`
     * cancelled. An unknown id fails before anything is written.
     */
    method Cancel(id: Int64, refundTxn: Option<string>) returns (res: Outcome<StoreError>)
      modifies this
      ensures Load(old(lines)).Failure? ==> res == Fail(MalformedRecord) && lines == old(lines)
      ensures Load(old(lines)).Success? && !HasId(Load(old(lines)).value, id)
              ==> res == Fail(NotFound) && lines == old(lines)
      ensures Load(old(lines)).Success? && HasId(Load(old(lines)).value, id) ==>
        var rs := Load(old(lines)).value;
        && res == Pass
        && lines == EncodeAll(CancelIn(rs, id, refundTxn))
        && Load(lines) == Success(NormalizeAll(CancelIn(rs, id, refundTxn)))
        && (TxnNormal(refundTxn) ==> Load(lines) == Success(CancelIn(rs, id, refundTxn)))
        && (IdsIncreasing(rs) ==> IdsIncreasing(Load(lines).value))
    {
      var all := LoadAll();
      if all.Failure? {
        return Fail(all.error);
      }
      var rs := all.value;
      var out, found := RewriteForCancel(rs, id, refundTxn);
      if !found {
        return Fail(NotFound);
      }
      lines := out;
      RewriteReadsBack(old(lines), id, refundTxn);
      res := Pass;
    }

    /** `findById`: the first record of the file with the given id, if any. */
    function FindById(id: Int64): (r: Result<Option<Reservation>, StoreError>)
      reads this
      ensures Load(lines).Failure? ==> r == Failure(MalformedRecord)
      ensures Load(lines).Success? ==> r.Success? && r.value == FirstWithId(Load(lines).value, id)
    {
      match Load(lines)
      case Failure(e) => Failure(e)
      case Success(rs) => Success(FirstWithId(rs, id))
    }
  }
}
