/**
 * The order model (app/Models/Order.php): refund and shipping status codes
 * with their labels, order serial numbers, refund numbers, and the creation
 * hook that assigns a serial number.
 *
 * The clock, the random draws and the numbers already stored in the orders
 * table are inputs.
 */
module Orders {
  import opened Options
  import opened Decimal
  import opened Digits

  // ---------------------------------------------------------------------
  // Status codes and their labels

  datatype RefundStatus = RefundPending | RefundApplied | RefundProcessing | RefundSuccess | RefundFailed

  datatype ShipStatus = ShipPending | ShipDelivered | ShipReceived

  /** The code stored in the `refund_status` column. */
  function RefundStatusCode(st: RefundStatus): (code: string)
    ensures code in RefundStatusMap
  {
    match st
    case RefundPending => "pending"
    case RefundApplied => "applied"
    case RefundProcessing => "processing"
    case RefundSuccess => "success"
    case RefundFailed => "failed"
  }

  /** The code stored in the `ship_status` column. */
  function ShipStatusCode(st: ShipStatus): (code: string)
    ensures code in ShipStatusMap
  {
    match st
    case ShipPending => "pending"
    case ShipDelivered => "delivered"
    case ShipReceived => "received"
  }

  /** Refund status code to display label. */
  const RefundStatusMap: map<string, string> := map[
    "pending" := "未退款",
    "applied" := "已申请退款",
    "processing" := "退款中",
    "success" := "退款成功",
    "failed" := "退款失败"
  ]

  /** Shipping status code to display label. */
  const ShipStatusMap: map<string, string> := map[
    "pending" := "未发货",
    "delivered" := "已发货",
    "received" := "已收货"
  ]

  /** The label of a refund status: defined for every status. */
  function RefundStatusLabel(st: RefundStatus): (text: string)
    ensures RefundStatusCode(st) in RefundStatusMap && text == RefundStatusMap[RefundStatusCode(st)]
    ensures text != ""
  {
    RefundStatusMap[RefundStatusCode(st)]
  }

  /** The label of a shipping status: defined for every status. */
  function ShipStatusLabel(st: ShipStatus): (text: string)
    ensures ShipStatusCode(st) in ShipStatusMap && text == ShipStatusMap[ShipStatusCode(st)]
    ensures text != ""
  {
    ShipStatusMap[ShipStatusCode(st)]
  }

  /**
   * The refund label map has one entry per status and no other: the five
   * codes are distinct and are exactly its keys.
   */
  lemma RefundStatusMapExact()
    ensures forall a, b :: RefundStatusCode(a) == RefundStatusCode(b) ==> a == b
    ensures forall code :: code in RefundStatusMap <==> exists st :: RefundStatusCode(st) == code
    ensures |RefundStatusMap| == 5
  {
    forall code | code in RefundStatusMap
      ensures exists st :: RefundStatusCode(st) == code
    {
      if code == "pending" { assert RefundStatusCode(RefundPending) == code; }
      else if code == "applied" { assert RefundStatusCode(RefundApplied) == code; }
      else if code == "processing" { assert RefundStatusCode(RefundProcessing) == code; }
      else if code == "success" { assert RefundStatusCode(RefundSuccess) == code; }
      else { assert RefundStatusCode(RefundFailed) == code; }
    }
    assert RefundStatusMap.Keys == {"pending", "applied", "processing", "success", "failed"};
    forall a, b | RefundStatusCode(a) == RefundStatusCode(b)
      ensures a == b
    {
      // The codes differ in length or in their first letter.
      assert |RefundStatusCode(a)| == |RefundStatusCode(b)| && RefundStatusCode(a)[0] == RefundStatusCode(b)[0];
    }
  }

  /**
   * The shipping label map has one entry per status and no other: the three
   * codes are distinct and are exactly its keys.
   */
  lemma ShipStatusMapExact()
    ensures forall a, b :: ShipStatusCode(a) == ShipStatusCode(b) ==> a == b
    ensures forall code :: code in ShipStatusMap <==> exists st :: ShipStatusCode(st) == code
    ensures |ShipStatusMap| == 3
  {
    forall code | code in ShipStatusMap
      ensures exists st :: ShipStatusCode(st) == code
    {
      if code == "pending" { assert ShipStatusCode(ShipPending) == code; }
      else if code == "delivered" { assert ShipStatusCode(ShipDelivered) == code; }
      else { assert ShipStatusCode(ShipReceived) == code; }
    }
    assert ShipStatusMap.Keys == {"pending", "delivered", "received"};
    forall a, b | ShipStatusCode(a) == ShipStatusCode(b)
      ensures a == b
    {
      // The codes differ in length or in their first letter.
      assert |ShipStatusCode(a)| == |ShipStatusCode(b)| && ShipStatusCode(a)[0] == ShipStatusCode(b)[0];
    }
  }

  // ---------------------------------------------------------------------
  // Order serial numbers

  /** Candidate serial numbers tried before giving up. */
  const MaxAttempts: nat := 10
  /** Width of the random part of a serial number. */
  const SuffixWidth: nat := 6
  /** Largest random draw: random_int(0, 999999). */
  const MaxDraw: nat := 999999

  /** A local date and time as the clock reports it. */
  datatype DateTime = DateTime(year: nat, month: nat, day: nat, hour: nat, minute: nat, second: nat)

  predicate ValidDateTime(t: DateTime)
  {
    && t.year <= 9999
    && 1 <= t.month <= 12
    && 1 <= t.day <= 31
    && t.hour < 24
    && t.minute < 60
    && t.second < 60
  }

  /** `date('YmdHis')`: four-digit year, then month, day, hour, minute and second in two digits each. */
  function YmdHis(t: DateTime): (p: string)
    ensures |p| >= 14
  {
    PadDigits(t.year, 4) + PadDigits(t.month, 2) + PadDigits(t.day, 2)
      + PadDigits(t.hour, 2) + PadDigits(t.minute, 2) + PadDigits(t.second, 2)
  }

  /** The serial-number prefix is fourteen digits. */
  lemma YmdHisDigits(t: DateTime)
    requires ValidDateTime(t)
    ensures |YmdHis(t)| == 14 && AllDigits(YmdHis(t))
  {
    Pow10Small();
    PadDigitsRoundTrip(t.year, 4);
    PadDigitsRoundTrip(t.month, 2);
    PadDigitsRoundTrip(t.day, 2);
    PadDigitsRoundTrip(t.hour, 2);
    PadDigitsRoundTrip(t.minute, 2);
    PadDigitsRoundTrip(t.second, 2);
    SixFields(PadDigits(t.year, 4), PadDigits(t.month, 2), PadDigits(t.day, 2),
              PadDigits(t.hour, 2), PadDigits(t.minute, 2), PadDigits(t.second, 2));
  }

  /** The characters p[i..j] are digits that read as v. */
  predicate FieldReads(p: string, i: nat, j: nat, v: nat)
  {
    i <= j <= |p| && AllDigits(p[i..j]) && ParseDigits(p[i..j]) == v
  }

  /** Each field of the date and time reads back from its fixed place in the prefix. */
  lemma YmdHisFields(t: DateTime)
    requires ValidDateTime(t)
    ensures |YmdHis(t)| == 14 && AllDigits(YmdHis(t))
    ensures FieldReads(YmdHis(t), 0, 4, t.year)
    ensures FieldReads(YmdHis(t), 4, 6, t.month)
    ensures FieldReads(YmdHis(t), 6, 8, t.day)
    ensures FieldReads(YmdHis(t), 8, 10, t.hour)
    ensures FieldReads(YmdHis(t), 10, 12, t.minute)
    ensures FieldReads(YmdHis(t), 12, 14, t.second)
  {
    YmdHisDigits(t);
    Pow10Small();
    PadDigitsRoundTrip(t.year, 4);
    PadDigitsRoundTrip(t.month, 2);
    PadDigitsRoundTrip(t.day, 2);
    PadDigitsRoundTrip(t.hour, 2);
    PadDigitsRoundTrip(t.minute, 2);
    PadDigitsRoundTrip(t.second, 2);
    SixFields(PadDigits(t.year, 4), PadDigits(t.month, 2), PadDigits(t.day, 2),
              PadDigits(t.hour, 2), PadDigits(t.minute, 2), PadDigits(t.second, 2));
  }

  /** Where each of six concatenated digit fields of widths 4, 2, 2, 2, 2, 2 sits. */
  lemma SixFields(y: string, mo: string, d: string, h: string, mi: string, se: string)
    requires |y| == 4 && |mo| == 2 && |d| == 2 && |h| == 2 && |mi| == 2 && |se| == 2
    requires AllDigits(y) && AllDigits(mo) && AllDigits(d) && AllDigits(h) && AllDigits(mi) && AllDigits(se)
    ensures |y + mo + d + h + mi + se| == 14 && AllDigits(y + mo + d + h + mi + se)
    ensures var p := y + mo + d + h + mi + se;
      p[0..4] == y && p[4..6] == mo && p[6..8] == d && p[8..10] == h && p[10..12] == mi && p[12..14] == se
  {
    var p := y + mo + d + h + mi + se;
    assert forall k :: 0 <= k < 14 ==> IsDigit(p[k]);
  }

  /** One candidate serial number: the prefix and a random draw padded to six digits. */
  function Candidate(prefix: string, draw: nat): (c: string)
    ensures |c| >= |prefix| + SuffixWidth && c[..|prefix|] == prefix
  {
    prefix + PadDigits(draw, SuffixWidth)
  }

  /**
   * A candidate is the prefix followed by exactly six digits that read back as
   * the draw.
   */
  lemma CandidateFormat(prefix: string, draw: nat)
    requires draw <= MaxDraw
    ensures var c := Candidate(prefix, draw);
      && |c| == |prefix| + SuffixWidth
      && c[..|prefix|] == prefix
      && AllDigits(c[|prefix|..])
      && ParseDigits(c[|prefix|..]) == draw
  {
    Pow10Small();
    PadDigitsRoundTrip(draw, SuffixWidth);
    var c := Candidate(prefix, draw);
    assert c[|prefix|..] == PadDigits(draw, SuffixWidth);
  }

  /** The first candidate not already taken, if any. */
  function FirstFresh(candidates: seq<string>, taken: set<string>): (r: Option<string>)
    ensures r.Some? ==> r.value in candidates && r.value !in taken
  {
    if candidates == [] then None
    else if candidates[0] !in taken then Some(candidates[0])
    else FirstFresh(candidates[1..], taken)
  }

  /**
   * FirstFresh finds the earliest candidate that is not taken, and finds
   * nothing exactly when every candidate is taken.
   */
  lemma {:induction false} FirstFreshSpec(candidates: seq<string>, taken: set<string>)
    ensures FirstFresh(candidates, taken).None? <==> forall i :: 0 <= i < |candidates| ==> candidates[i] in taken
    ensures FirstFresh(candidates, taken).Some? ==>
      exists i :: 0 <= i < |candidates| && candidates[i] == FirstFresh(candidates, taken).value
        && candidates[i] !in taken && forall j :: 0 <= j < i ==> candidates[j] in taken
  {
    if candidates != [] && candidates[0] in taken {
      var rest := candidates[1..];
      FirstFreshSpec(rest, taken);
      if FirstFresh(rest, taken).Some? {
        var i :| 0 <= i < |rest| && rest[i] == FirstFresh(rest, taken).value
          && rest[i] !in taken && forall j :: 0 <= j < i ==> rest[j] in taken;
        assert candidates[i + 1] == rest[i];
        assert forall j :: 0 <= j < i + 1 ==> candidates[j] in taken by {
          forall j | 0 <= j < i + 1 ensures candidates[j] in taken {
            if j > 0 { assert candidates[j] == rest[j - 1]; }
          }
        }
      } else {
        assert forall i :: 0 <= i < |candidates| ==> candidates[i] in taken by {
          forall i | 0 <= i < |candidates| ensures candidates[i] in taken {
            if i > 0 { assert candidates[i] == rest[i - 1]; }
          }
        }
      }
    }
  }

  /** The serial numbers the draws give, in order. */
  function Candidates(prefix: string, draws: seq<nat>): (cs: seq<string>)
    ensures |cs| == |draws|
    ensures forall i :: 0 <= i < |draws| ==> cs[i] == Candidate(prefix, draws[i])
  {
    if draws == [] then [] else [Candidate(prefix, draws[0])] + Candidates(prefix, draws[1..])
  }

  /**
   * The number the search settles on: the first free candidate is unused,
   * twenty digits long, the timestamp followed by one draw's padded digits;
   * there is none exactly when every candidate is already used.
   */
  lemma FirstFreshNumber(now: DateTime, draws: seq<nat>, existing: set<string>)
    requires ValidDateTime(now)
    requires forall i :: 0 <= i < |draws| ==> draws[i] <= MaxDraw
    ensures var r := FirstFresh(Candidates(YmdHis(now), draws), existing);
      && (r.None? <==> forall i :: 0 <= i < |draws| ==> Candidate(YmdHis(now), draws[i]) in existing)
      && (r.Some? ==>
        && r.value !in existing
        && |r.value| == 20
        && AllDigits(r.value)
        && r.value[..14] == YmdHis(now)
        && exists i :: 0 <= i < |draws| && ParseDigits(r.value[14..]) == draws[i])
  {
    var prefix := YmdHis(now);
    var cands := Candidates(prefix, draws);
    var r := FirstFresh(cands, existing);
    YmdHisDigits(now);
    FirstFreshSpec(cands, existing);
    if r.Some? {
      var i :| 0 <= i < |cands| && cands[i] == r.value
        && cands[i] !in existing && forall j :: 0 <= j < i ==> cands[j] in existing;
      CandidateFormat(prefix, draws[i]);
      var v := r.value;
      assert v[..14] == prefix;
      assert forall k :: 0 <= k < 20 ==> IsDigit(v[k]) by {
        forall k | 0 <= k < 20 ensures IsDigit(v[k]) {
          if k < 14 { assert v[k] == prefix[k]; } else { assert v[k] == v[14..][k - 14]; }
        }
      }
    }
  }

  /**
   * `findAvailableNo`: try up to MaxAttempts candidates built from the clock
   * and the random draws, and return the first one not already used as an
   * order number, or None (the source's `false`) when all are taken.
   */
  method FindAvailableNo(now: DateTime, draws: seq<nat>, existing: set<string>) returns (no: Option<string>)
    requires ValidDateTime(now)
    requires |draws| == MaxAttempts && forall i :: 0 <= i < |draws| ==> draws[i] <= MaxDraw
    ensures no == FirstFresh(Candidates(YmdHis(now), draws), existing)
    ensures no.None? <==> forall i :: 0 <= i < MaxAttempts ==> Candidate(YmdHis(now), draws[i]) in existing
    ensures no.Some? ==>
      && no.value !in existing
      && |no.value| == 20
      && AllDigits(no.value)
      && no.value[..14] == YmdHis(now)
      && exists i :: 0 <= i < MaxAttempts && ParseDigits(no.value[14..]) == draws[i]
  {
    var prefix := YmdHis(now);
    ghost var cands := Candidates(prefix, draws);
    var i := 0;
    while i < MaxAttempts
      invariant 0 <= i <= MaxAttempts
      invariant FirstFresh(cands[i..], existing) == FirstFresh(cands, existing)
    {
      var candidate := prefix + PadDigits(draws[i], SuffixWidth);
      assert candidate == cands[i..][0];
      if candidate !in existing {
        FirstFreshNumber(now, draws, existing);
        return Some(candidate);
      }
      assert cands[i..][1..] == cands[i + 1..];
      i := i + 1;
    }
    FirstFreshNumber(now, draws, existing);
    return None;
  }

  // ---------------------------------------------------------------------
  // Refund numbers

  predicate IsLowerHex(c: char)
  {
    '0' <= c <= '9' || 'a' <= c <= 'f'
  }

  /** The hex form of a UUID: 32 lower-case hexadecimal digits without dashes. */
  predicate IsUuidHex(s: string)
  {
    |s| == 32 && forall i :: 0 <= i < |s| ==> IsLowerHex(s[i])
  }

  /**
   * `getAvailableRefundNo`: draw UUIDs until one is not already used as a
   * refund number. The draws are supplied; None means the supplied draws ran
   * out, where the source would keep drawing.
   */
  method GetAvailableRefundNo(uuids: seq<string>, usedRefundNos: set<string>) returns (no: Option<string>)
    requires forall i :: 0 <= i < |uuids| ==> IsUuidHex(uuids[i])
    ensures no == FirstFresh(uuids, usedRefundNos)
    ensures no.Some? ==> no.value !in usedRefundNos && IsUuidHex(no.value)
    ensures no.None? <==> forall i :: 0 <= i < |uuids| ==> uuids[i] in usedRefundNos
  {
    FirstFreshSpec(uuids, usedRefundNos);
    var i := 0;
    while i < |uuids|
      invariant 0 <= i <= |uuids|
      invariant FirstFresh(uuids[i..], usedRefundNos) == FirstFresh(uuids, usedRefundNos)
    {
      var candidate := uuids[i];
      if candidate !in usedRefundNos {
        return Some(candidate);
      }
      assert uuids[i..][1..] == uuids[i + 1..];
      i := i + 1;
    }
    return None;
  }

  // ---------------------------------------------------------------------
  // The creating hook

  /** PHP truthiness of a string: "" and "0" are false (a missing number is held as ""). */
  predicate Falsy(s: string): (b: bool)
    ensures b <==> |s| <= 1 && forall i :: 0 <= i < |s| ==> s[i] == '0'
  {
    s == "" || s == "0"
  }

  /** An order about to be inserted; only its serial number matters here. */
  class Order {
    var no: string

    constructor (no: string)
      ensures this.no == no
    {
      this.no := no;
    }

    /**
     * The `creating` callback: an order that already has a number keeps it;
     * otherwise it gets the first free candidate, and creation is aborted
     * (`proceed` is false, the number is left empty) when there is none.
     */
    method Creating(now: DateTime, draws: seq<nat>, existing: set<string>) returns (proceed: bool)
      requires ValidDateTime(now)
      requires |draws| == MaxAttempts && forall i :: 0 <= i < |draws| ==> draws[i] <= MaxDraw
      modifies this
      ensures !Falsy(old(no)) ==> proceed && no == old(no)
      ensures Falsy(old(no)) ==>
        match FirstFresh(Candidates(YmdHis(now), draws), existing)
        case Some(v) => proceed && no == v && no !in existing
        case None => !proceed && no == ""
    {
      proceed := true;
      if Falsy(no) {
        var found := FindAvailableNo(now, draws, existing);
        no := match found case Some(v) => v case None => "";
        if Falsy(no) {
          proceed := false;
        }
      }
    }
  }
}
