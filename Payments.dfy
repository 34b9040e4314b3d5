/**
 * The simulated payment processor: a charge is accepted for a positive
 * amount on a 16-digit card number that passes the Luhn check (the
 * check-digit scheme of ISO/IEC 7812-1, Annex B); a refund is accepted
 * whenever the original payment transaction id is present and non-empty.
 * Transaction ids are built from a random number and a clock reading, which
 * are inputs here.
 */
module Payments {
  import opened Base
  import opened Decimal

  datatype TxnKind = Payment | Refund

  /** What the processor reports; amounts are carried instead of formatted text. */
  datatype Message =
    | InvalidAmount
    | CardDeclined
    | Charged(amount: int)
    | OriginalPaymentMissing
    | RefundIssued(amount: int)

  datatype PaymentResult = PaymentResult(success: bool, txnId: Option<string>, message: Message)

  function KindPrefix(k: TxnKind): string {
    match k
    case Payment => "PAY"
    case Refund => "RFD"
  }

  /**
   * `genTxn`: prefix, a six-digit random part and the clock reading, joined by
   * dashes. Such an id is never empty and holds neither a quote nor a comma,
   * so it is stored and read back unchanged.
   */
  function GenTxn(kind: TxnKind, random: int, millis: int): (t: string)
    requires 0 <= random < 900000
    ensures |t| >= 7
    ensures forall i :: 0 <= i < |t| ==> t[i] != '"' && t[i] != ','
  {
    var r := IntToString(100000 + random);
    var m := IntToString(millis);
    assert forall i :: 0 <= i < |r| ==> r[i] != '"' && r[i] != ',';
    assert forall i :: 0 <= i < |m| ==> m[i] != '"' && m[i] != ',';
    KindPrefix(kind) + "-" + r + "-" + m
  }

  // ---------------------------------------------------------------------------
  // Luhn check

  function DigitValue(c: char): int {
    c as int - '0' as int
  }

  /** What one digit adds to the sum: doubled digits lose 9 when they exceed 9. */
  function LuhnTerm(c: char, doubled: bool): int {
    var n := DigitValue(c);
    if doubled then (if 2 * n > 9 then 2 * n - 9 else 2 * n) else n
  }

  /**
   * The Luhn sum of `s`, read from its last character; `alt` says whether that
   * last character is doubled. Every second digit from the right is doubled.
   */
  function LuhnSum(s: string, alt: bool): int
    decreases |s|
  {
    if s == [] then 0 else LuhnTerm(s[|s| - 1], alt) + LuhnSum(s[..|s| - 1], !alt)
  }

  /** The card number passes when its sum, last digit undoubled, is a multiple of 10. */
  predicate LuhnValid(s: string) {
    LuhnSum(s, false) % 10 == 0
  }

  /** `luhn`: the reverse loop over the digits with a running sum and an alternation flag. */
  method Luhn(s: string) returns (ok: bool)
    ensures ok == LuhnValid(s)
  {
    var sum := 0;
    var alt := false;
    var i := |s| - 1;
    assert s[..i + 1] == s;
    while i >= 0
      invariant -1 <= i < |s|
      invariant sum + LuhnSum(s[..i + 1], alt) == LuhnSum(s, false)
    {
      assert s[..i + 1][..i] == s[..i];
      var n := s[i] as int - '0' as int;
      if alt {
        n := n * 2;
        if n > 9 {
          n := n - 9;
        }
      }
      sum := sum + n;
      alt := !alt;
      i := i - 1;
    }
    ok := sum % 10 == 0;
  }

  /** `isPlausibleCard`: exactly sixteen decimal digits that pass the Luhn check. */
  method IsPlausibleCard(card: string) returns (ok: bool)
    ensures ok <==> |card| == 16 && AllDigits(card) && LuhnValid(card)
  {
    if |card| != 16 || !AllDigits(card) {
      return false;
    }
    ok := Luhn(card);
  }

  /** The Luhn sum of a concatenation splits at the joint; the flag of the front part depends on the parity of the back. */
  lemma {:induction false} LuhnSumAppend(a: string, b: string, alt: bool)
    ensures LuhnSum(a + b, alt) == LuhnSum(b, alt) + LuhnSum(a, if |b| % 2 == 0 then alt else !alt)
    decreases |b|
  {
    if b == [] {
      assert a + b == a;
    } else {
      var b' := b[..|b| - 1];
      assert (a + b)[..|a + b| - 1] == a + b';
      assert (a + b)[|a + b| - 1] == b[|b| - 1];
      LuhnSumAppend(a, b', !alt);
    }
  }

  /** The doubling step sends the ten digits to ten different values between 0 and 9. */
  lemma LuhnTermInjective(c: char, d: char, doubled: bool)
    requires IsDigit(c) && IsDigit(d)
    ensures 0 <= LuhnTerm(c, doubled) <= 9
    ensures LuhnTerm(c, doubled) == LuhnTerm(d, doubled) ==> c == d
  {
  }

  /** Two multiples of ten less than ten apart are equal. */
  lemma MultiplesOfTenApart(x: int, y: int)
    requires x % 10 == 0 && y % 10 == 0 && -10 < x - y < 10
    ensures x == y
  {
    assert x == 10 * (x / 10) && y == 10 * (y / 10);
  }

  /** The last digit of a number with one more character in front: it is read with the flag flipped. */
  lemma LuhnSumLast(payload: string, d: char)
    ensures LuhnSum(payload + [d], false) == DigitValue(d) + LuhnSum(payload, true)
  {
    assert (payload + [d])[..|payload|] == payload;
  }

  /** Every digit string has exactly one check digit that makes it pass. */
  lemma LuhnCheckDigit(payload: string)
    ensures exists d :: IsDigit(d) && LuhnValid(payload + [d])
    ensures forall d, e :: IsDigit(d) && IsDigit(e) && LuhnValid(payload + [d]) && LuhnValid(payload + [e])
                           ==> d == e
  {
    var x := LuhnSum(payload, true);
    var v := (10 - x % 10) % 10;
    var c := DigitChar(v);
    LuhnSumLast(payload, c);
    assert (v + x) % 10 == 0;
    assert LuhnValid(payload + [c]);
    forall d, e | IsDigit(d) && IsDigit(e) && LuhnValid(payload + [d]) && LuhnValid(payload + [e])
      ensures d == e
    {
      LuhnSumLast(payload, d);
      LuhnSumLast(payload, e);
      MultiplesOfTenApart(DigitValue(d) + x, DigitValue(e) + x);
    }
  }

  /** The Luhn sum of a number split around one digit `c`, whose flag depends on how many digits follow it. */
  lemma LuhnSumAround(a: string, c: char, b: string)
    ensures var g := |b| % 2 == 1;
      LuhnSum(a + [c] + b, false) == LuhnSum(b, false) + LuhnTerm(c, g) + LuhnSum(a, !g)
  {
    var g := |b| % 2 == 1;
    LuhnSumAppend(a + [c], b, false);
    LuhnSumAppend(a, [c], g);
    assert [c][..0] == [];
  }

  /** Changing any one digit of a passing number makes it fail: every single-digit error is caught. */
  lemma LuhnDetectsSingleDigitError(s: string, t: string, j: nat)
    requires |s| == |t| && j < |s|
    requires IsDigit(s[j]) && IsDigit(t[j]) && s[j] != t[j]
    requires forall k :: 0 <= k < |s| && k != j ==> s[k] == t[k]
    ensures !(LuhnValid(s) && LuhnValid(t))
  {
    var a, b := s[..j], s[j + 1..];
    assert t[..j] == a && t[j + 1..] == b;
    assert s == a + [s[j]] + b;
    assert t == a + [t[j]] + b;
    var g := |b| % 2 == 1;
    LuhnSumAround(a, s[j], b);
    LuhnSumAround(a, t[j], b);
    LuhnTermInjective(s[j], t[j], g);
    LuhnTermInjective(t[j], s[j], g);
    if LuhnValid(s) && LuhnValid(t) {
      MultiplesOfTenApart(LuhnSum(s, false), LuhnSum(t, false));
    }
  }

  // ---------------------------------------------------------------------------
  // Charge and refund

  /** `charge`: the amount is checked first, then the card. */
  method Charge(card: string, amount: int, random: int, millis: int) returns (p: PaymentResult)
    requires 0 <= random < 900000
    ensures p.success <==> amount > 0 && |card| == 16 && AllDigits(card) && LuhnValid(card)
    ensures p.success ==> p.txnId == Some(GenTxn(Payment, random, millis)) && p.message == Charged(amount)
    ensures !p.success ==> p.txnId.None? && p.message == if amount <= 0 then InvalidAmount else CardDeclined
  {
    if amount <= 0 {
      return PaymentResult(false, None, InvalidAmount);
    }
    var plausible := IsPlausibleCard(card);
    if !plausible {
      return PaymentResult(false, None, CardDeclined);
    }
    var txn := GenTxn(Payment, random, millis);
    p := PaymentResult(true, Some(txn), Charged(amount));
  }

  /** `refund`: accepted exactly when there is an original payment id to refund. */
  function RefundPayment(paymentTxnId: Option<string>, amount: int, random: int, millis: int): (p: PaymentResult)
    requires 0 <= random < 900000
    ensures p.success <==> paymentTxnId.Some? && paymentTxnId.value != ""
    ensures p.success ==> p.txnId == Some(GenTxn(Refund, random, millis)) && p.message == RefundIssued(amount)
    ensures !p.success ==> p.txnId.None? && p.message == OriginalPaymentMissing
  {
    if paymentTxnId.None? || paymentTxnId.value == "" then PaymentResult(false, None, OriginalPaymentMissing)
    else PaymentResult(true, Some(GenTxn(Refund, random, millis)), RefundIssued(amount))
  }
}
