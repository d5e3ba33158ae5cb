/** The simulated payment gateway. It keeps no state: the outcome is a function of the
    amount and of the random draw, and a successful payment is identified by a
    transaction id cut from a random UUID. Both the draw (`Math.random()`, in [0, 1)) and
    the UUID's text are parameters. */
module PaymentService {
  import opened Common

  /** Draws below this value succeed. */
  const SuccessProbability: real := 0.95

  datatype PaymentResult = PaymentResult(success: bool, transactionId: Option<string>, message: string)

  predicate IsLowerHex(c: char)
  {
    '0' <= c <= '9' || 'a' <= c <= 'f'
  }

  predicate IsUpperHex(c: char)
  {
    '0' <= c <= '9' || 'A' <= c <= 'F'
  }

  /** The text of `UUID.toString()`: 8-4-4-4-12 lowercase hex digits joined by dashes. */
  predicate IsUuidText(u: string)
  {
    |u| == 36 &&
    (forall i :: 0 <= i < 36 && i != 8 && i != 13 && i != 18 && i != 23 ==> IsLowerHex(u[i])) &&
    u[8] == '-' && u[13] == '-' && u[18] == '-' && u[23] == '-'
  }

  /** `s.replace("-", "")`. */
  function RemoveDashes(s: string): (r: string)
    ensures |r| <= |s|
    decreases |s|
  {
    if s == [] then [] else (if s[0] == '-' then [] else [s[0]]) + RemoveDashes(s[1..])
  }

  lemma {:induction false} RemoveDashesAppend(a: string, b: string)
    ensures RemoveDashes(a + b) == RemoveDashes(a) + RemoveDashes(b)
    decreases |a|
  {
    if a == [] {
      assert a + b == b;
    } else {
      assert (a + b)[1..] == a[1..] + b;
      RemoveDashesAppend(a[1..], b);
    }
  }

  /** Text without dashes is left as it is. */
  lemma {:induction false} RemoveDashesNone(s: string)
    requires forall i :: 0 <= i < |s| ==> s[i] != '-'
    ensures RemoveDashes(s) == s
    decreases |s|
  {
    if s != [] {
      RemoveDashesNone(s[1..]);
    }
  }

  /** A stretch of a UUID's text inside one group has no dash. */
  lemma DashFreeSlice(u: string, lo: int, hi: int)
    requires IsUuidText(u)
    requires 0 <= lo <= hi
    requires hi <= 8 || (9 <= lo && hi <= 13) || (14 <= lo && hi <= 18)
    ensures RemoveDashes(u[lo..hi]) == u[lo..hi]
  {
    forall i | 0 <= i < hi - lo
      ensures u[lo..hi][i] != '-'
    {
      assert u[lo..hi][i] == u[lo + i];
      assert IsLowerHex(u[lo + i]);
    }
    RemoveDashesNone(u[lo..hi]);
  }

  /** The first 16 hex digits of a UUID once its dashes are removed: the first three groups. */
  lemma UuidPrefix(u: string)
    requires IsUuidText(u)
    ensures |RemoveDashes(u)| >= 16
    ensures RemoveDashes(u)[..16] == u[..8] + u[9..13] + u[14..18]
  {
    var g1, d1, g2, d2, g3, rest := u[..8], [u[8]], u[9..13], [u[13]], u[14..18], u[18..];
    DashFreeSlice(u, 0, 8);
    DashFreeSlice(u, 9, 13);
    DashFreeSlice(u, 14, 18);
    assert RemoveDashes(d1) == [] && RemoveDashes(d2) == [];
    assert u == g1 + d1 + g2 + d2 + g3 + rest;
    RemoveDashesAppend(g1 + d1 + g2 + d2 + g3, rest);
    RemoveDashesAppend(g1 + d1 + g2 + d2, g3);
    RemoveDashesAppend(g1 + d1 + g2, d2);
    RemoveDashesAppend(g1 + d1, g2);
    RemoveDashesAppend(g1, d1);
    assert RemoveDashes(u) == (g1 + g2 + g3) + RemoveDashes(rest);
  }

  /** `generateTransactionId()` for the UUID whose text is `u`. */
  function TransactionId(u: string): string
    requires IsUuidText(u)
  {
    UuidPrefix(u);
    "TXN_" + ToUpper(RemoveDashes(u)[..16])
  }

  /** A transaction id is "TXN_" followed by 16 uppercase hex digits: the first three groups
      of the UUID, upper-cased. */
  lemma TransactionIdFormat(u: string)
    requires IsUuidText(u)
    ensures |TransactionId(u)| == 20
    ensures TransactionId(u)[..4] == "TXN_"
    ensures forall i :: 4 <= i < 20 ==> IsUpperHex(TransactionId(u)[i])
    ensures TransactionId(u)[4..] == ToUpper(u[..8] + u[9..13] + u[14..18])
  {
    UuidPrefix(u);
    var id := TransactionId(u);
    forall i | 4 <= i < 20
      ensures IsUpperHex(id[i])
    {
      var j := i - 4;
      var src := u[..8] + u[9..13] + u[14..18];
      assert id[i] == Upper(src[j]);
      if j < 8 {
        assert src[j] == u[j];
      } else if j < 12 {
        assert src[j] == u[j + 1];
      } else {
        assert src[j] == u[j + 2];
      }
    }
  }

  /** `processPayment(amount)` with draw `draw` and a UUID whose text is `uuid`. */
  function ProcessPayment(amount: Option<real>, draw: real, uuid: string): (r: PaymentResult)
    requires IsUuidText(uuid)
    ensures r.success <==> amount.Some? && amount.value > 0.0 && draw < SuccessProbability
    ensures r.success <==> r.transactionId.Some?
    ensures r.success ==> r.transactionId == Some(TransactionId(uuid)) && r.message == "Payment successful"
    ensures (amount.None? || amount.value <= 0.0) ==> r.message == "Invalid amount"
    ensures amount.Some? && amount.value > 0.0 && !r.success ==> r.message == "Payment failed - Please try again"
  {
    if amount.None? || amount.value <= 0.0 then PaymentResult(false, None, "Invalid amount")
    else if draw < SuccessProbability then PaymentResult(true, Some(TransactionId(uuid)), "Payment successful")
    else PaymentResult(false, None, "Payment failed - Please try again")
  }
}
