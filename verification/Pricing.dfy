/** Discount validation and the totals of a checkout, in whole rupiah. */
module Pricing {
  import opened Prelude

  datatype Delivery = Instant | NextDay | Regular

  /** Delivery fees as configured; a negative fee is outside this model. */
  datatype Fees = Fees(instant: nat, nextDay: nat, regular: nat) {
    function Of(d: Delivery): nat {
      match d
      case Instant => instant
      case NextDay => nextDay
      case Regular => regular
    }
  }

  type Percent = p: nat | 1 <= p <= 100 witness 1

  datatype Voucher = Voucher(code: string, amount: nat, minOrder: nat, expiresAt: int, remaining: int)
  datatype Promo = Promo(code: string, percent: Percent, cap: Option<nat>, minOrder: nat, expiresAt: int)

  datatype DiscountKind = FromVoucher(row: nat) | FromPromo(row: nat)
  datatype Discount = Discount(kind: DiscountKind, code: string, amount: nat)

  datatype DiscountError = Expired | UsedUp | BelowMinimum | UnknownCode

  datatype Totals = Totals(deliveryFee: nat, taxBase: nat, ppn: nat, total: nat)

  function Min(a: int, b: int): int { if a <= b then a else b }

  function Max(a: int, b: int): int { if a >= b then a else b }

  // ----- the arithmetic of a total -----

  /** `Math.round(taxBase * 0.12)`: the nearest integer, halves rounding up. */
  function Ppn(taxBase: nat): nat { (12 * taxBase + 50) / 100 }

  function CalculateTotals(subtotal: nat, delivery: Delivery, fees: Fees, discount: nat): Totals {
    var taxBase: nat := Max(0, subtotal - discount) + fees.Of(delivery);
    Totals(fees.Of(delivery), taxBase, Ppn(taxBase), taxBase + Ppn(taxBase))
  }

  /** Twelve percent of a whole amount is never half way between two integers, so the rounding
      direction of a tie cannot matter; the error is at most 48 hundredths, and every other integer
      is at least 52 hundredths away. */
  lemma PpnIsNearest(taxBase: nat, other: int)
    ensures (12 * taxBase) % 100 != 50
    ensures -48 <= 100 * Ppn(taxBase) - 12 * taxBase <= 48
    ensures other != Ppn(taxBase) ==>
      100 * other - 12 * taxBase >= 52 || 100 * other - 12 * taxBase <= -52
  {
    var q, r := 12 * taxBase / 100, 12 * taxBase % 100;
    assert r % 4 == 0 by {
      assert 12 * taxBase == 100 * q + r;
      assert r == 4 * (3 * taxBase - 25 * q);
    }
  }

  lemma TotalGrowsWithTaxBase(low: nat, high: nat)
    requires low < high
    ensures low + Ppn(low) < high + Ppn(high)
  {
  }

  /** The fee is the one configured for the delivery, tax is on what the discount leaves plus the fee, and a
      hundred totals are within 48 of 112 tax bases. */
  lemma TotalIsTaxedRemainder(subtotal: nat, delivery: Delivery, fees: Fees, discount: nat)
    ensures
      var t := CalculateTotals(subtotal, delivery, fees, discount);
      && (delivery == Instant ==> t.deliveryFee == fees.instant)
      && (delivery == NextDay ==> t.deliveryFee == fees.nextDay)
      && (delivery == Regular ==> t.deliveryFee == fees.regular)
      && t.taxBase == (if discount <= subtotal then subtotal - discount else 0) + t.deliveryFee
      && t.total == t.taxBase + t.ppn
      && -48 <= 100 * t.ppn - 12 * t.taxBase <= 48
      && -48 <= 100 * t.total - 112 * t.taxBase <= 48
  {
    PpnIsNearest(CalculateTotals(subtotal, delivery, fees, discount).taxBase, 0);
  }

  // ----- discount codes -----

  function UpperChar(c: char): char {
    if 'a' <= c <= 'z' then c - 'a' + 'A' else c
  }

  function Upper(s: string): string { seq(|s|, i requires 0 <= i < |s| => UpperChar(s[i])) }

  predicate Blank(c: char) { c == ' ' || c == '\t' || c == '\n' || c == '\r' }

  function Trim(s: string): string {
    if s == "" then ""
    else if Blank(s[0]) then Trim(s[1..])
    else if Blank(s[|s| - 1]) then Trim(s[..|s| - 1])
    else s
  }

  /** A query for one row and in no order: any matching row can be the answer, for some `pick`. */
  function FindVoucher(rows: seq<Voucher>, wanted: string, pick: nat): (found: Option<nat>)
    ensures found.Some? ==> found.value < |rows| && Upper(rows[found.value].code) == wanted
    ensures found.None? ==> forall v :: v in rows ==> Upper(v.code) != wanted
    ensures pick < |rows| && Upper(rows[pick].code) == wanted ==> found == Some(pick)
  {
    if pick < |rows| && Upper(rows[pick].code) == wanted then Some(pick)
    else if rows == [] then None
    else if Upper(rows[|rows| - 1].code) == wanted then Some(|rows| - 1)
    else FindVoucher(rows[..|rows| - 1], wanted, pick)
  }

  function FindPromo(rows: seq<Promo>, wanted: string, pick: nat): (found: Option<nat>)
    ensures found.Some? ==> found.value < |rows| && Upper(rows[found.value].code) == wanted
    ensures found.None? ==> forall p :: p in rows ==> Upper(p.code) != wanted
    ensures pick < |rows| && Upper(rows[pick].code) == wanted ==> found == Some(pick)
  {
    if pick < |rows| && Upper(rows[pick].code) == wanted then Some(pick)
    else if rows == [] then None
    else if Upper(rows[|rows| - 1].code) == wanted then Some(|rows| - 1)
    else FindPromo(rows[..|rows| - 1], wanted, pick)
  }

  function VoucherDiscount(v: Voucher, subtotal: nat): nat { Min(v.amount, subtotal) }

  function PromoDiscount(p: Promo, subtotal: nat): nat {
    var share := subtotal * p.percent / 100;
    Min(if p.cap.Some? then Min(share, p.cap.value) else share, subtotal)
  }

  /** Vouchers are looked up first, then promos; a code matches after trimming and upper-casing. */
  function ValidateCode(vouchers: seq<Voucher>, promos: seq<Promo>, code: string, subtotal: nat, now: int, pick: nat)
    : Result<Discount, DiscountError>
  {
    var wanted := Upper(Trim(code));
    var v := FindVoucher(vouchers, wanted, pick);
    if v.Some? then
      var row := vouchers[v.value];
      if row.expiresAt < now then Err(Expired)
      else if row.remaining <= 0 then Err(UsedUp)
      else if subtotal < row.minOrder then Err(BelowMinimum)
      else Ok(Discount(FromVoucher(v.value), row.code, VoucherDiscount(row, subtotal)))
    else
      var p := FindPromo(promos, wanted, pick);
      if p.None? then Err(UnknownCode)
      else
        var row := promos[p.value];
        if row.expiresAt < now then Err(Expired)
        else if subtotal < row.minOrder then Err(BelowMinimum)
        else Ok(Discount(FromPromo(p.value), row.code, PromoDiscount(row, subtotal)))
  }

  // ----- what a typed code names -----

  predicate BlankChar(c: char) { c in " \t\n\r" }

  predicate AllBlank(s: string) { forall i :: 0 <= i < |s| ==> BlankChar(s[i]) }

  predicate Tight(s: string) { s != "" ==> !BlankChar(s[0]) && !BlankChar(s[|s| - 1]) }

  predicate CaseOf(lower: char, upper: char) { 'a' <= lower <= 'z' && upper as int == lower as int - 32 }

  predicate SameButCase(s: string, t: string) {
    |s| == |t| && forall i :: 0 <= i < |s| ==> s[i] == t[i] || CaseOf(s[i], t[i]) || CaseOf(t[i], s[i])
  }

  /** `typed` is `stored` in any mixture of cases, with blanks around it. */
  ghost predicate Matches(stored: string, typed: string) {
    Tight(stored) && exists a, b ::
      0 <= a <= b <= |typed| && AllBlank(typed[..a]) && AllBlank(typed[b..]) && SameButCase(stored, typed[a..b])
  }

  lemma UpperIsSameButCase(s: string, t: string)
    ensures Upper(s) == Upper(t) <==> SameButCase(s, t)
    ensures SameButCase(s, t) ==> (Tight(s) <==> Tight(t))
  {
    if Upper(s) == Upper(t) {
      assert |s| == |Upper(s)| && |t| == |Upper(t)|;
      forall i | 0 <= i < |s| ensures s[i] == t[i] || CaseOf(s[i], t[i]) || CaseOf(t[i], s[i]) {
        assert Upper(s)[i] == Upper(t)[i];
      }
    }
  }

  lemma {:induction false} BlankTrims(s: string)
    requires AllBlank(s)
    ensures Trim(s) == ""
  {
    if s != "" {
      BlankTrims(s[1..]);
    }
  }

  lemma BlankAround(s: string, front: string, mid: string, back: string)
    requires AllBlank(front) && AllBlank(back) && s == front + mid + back
    ensures var a, b := |front|, |front| + |mid|;
      a <= b <= |s| && AllBlank(s[..a]) && AllBlank(s[b..]) && s[a..b] == mid
  {
    assert s[..|front|] == front && s[|front| + |mid|..] == back;
  }

  lemma OneMoreBlank(blanks: string, c: char)
    requires AllBlank(blanks) && Blank(c)
    ensures AllBlank([c] + blanks) && AllBlank(blanks + [c])
  {
  }

  lemma {:induction false} TrimIs(s: string) returns (front: string, back: string)
    ensures AllBlank(front) && AllBlank(back) && Tight(Trim(s)) && s == front + Trim(s) + back
  {
    front, back := "", "";
    if s == "" {
      return;
    }
    var c, d := s[0], s[|s| - 1];
    if Blank(c) {
      assert Trim(s) == Trim(s[1..]);
      hide Trim, Tight, AllBlank;
      front, back := TrimIs(s[1..]);
      OneMoreBlank(front, c);
      front := [c] + front;
      assert s == [c] + s[1..];
    } else if Blank(d) {
      assert Trim(s) == Trim(s[..|s| - 1]);
      hide Trim, Tight, AllBlank;
      front, back := TrimIs(s[..|s| - 1]);
      OneMoreBlank(back, d);
      assert s == s[..|s| - 1] + [d];
      assert front + Trim(s) + back + [d] == front + Trim(s) + (back + [d]);
      back := back + [d];
    }
  }

  lemma {:induction false} TrimIsOnly(front: string, mid: string, back: string)
    requires AllBlank(front) && AllBlank(back) && Tight(mid)
    ensures Trim(front + mid + back) == mid
    decreases |front| + |back|
  {
    var s := front + mid + back;
    if mid == "" {
      BlankTrims(s);
    } else if front != "" {
      assert s[0] == front[0];
      assert s[1..] == front[1..] + mid + back;
      TrimIsOnly(front[1..], mid, back);
    } else if back != "" {
      assert s[0] == mid[0] && s[|s| - 1] == back[|back| - 1];
      assert s[..|s| - 1] == front + mid + back[..|back| - 1];
      TrimIsOnly(front, mid, back[..|back| - 1]);
    } else {
      assert s == mid;
    }
  }

  lemma MatchTrims(stored: string, typed: string, a: nat, b: nat)
    requires a <= b <= |typed| && AllBlank(typed[..a]) && AllBlank(typed[b..])
    requires Tight(stored) && SameButCase(stored, typed[a..b])
    ensures Upper(stored) == Upper(Trim(typed))
  {
    UpperIsSameButCase(stored, typed[a..b]);
    hide Upper, Trim, SameButCase, AllBlank, Tight;
    assert typed == typed[..a] + typed[a..b] + typed[b..];
    TrimIsOnly(typed[..a], typed[a..b], typed[b..]);
  }

  /** A code is looked up ignoring case and surrounding blanks, and nothing else. */
  lemma CodeNamesIff(stored: string, typed: string)
    ensures Upper(stored) == Upper(Trim(typed)) <==> Matches(stored, typed)
  {
    if Matches(stored, typed) {
      var a, b :| 0 <= a <= b <= |typed| && AllBlank(typed[..a]) && AllBlank(typed[b..]) && SameButCase(stored, typed[a..b]);
      MatchTrims(stored, typed, a, b);
    }
    var front, back := TrimIs(typed);
    UpperIsSameButCase(stored, Trim(typed));
    BlankAround(typed, front, Trim(typed), back);
    hide Upper, Trim, SameButCase, AllBlank, Tight;
  }

  lemma CodesNamed(typed: string)
    ensures forall stored: string :: Upper(stored) == Upper(Trim(typed)) <==> Matches(stored, typed)
  {
    hide Upper, Trim, Matches;
    forall stored: string ensures Upper(stored) == Upper(Trim(typed)) <==> Matches(stored, typed) {
      CodeNamesIff(stored, typed);
    }
  }

  ghost predicate NamesVoucher(rows: seq<Voucher>, code: string, i: nat) { i < |rows| && Matches(rows[i].code, code) }

  ghost predicate NamesPromo(rows: seq<Promo>, code: string, i: nat) { i < |rows| && Matches(rows[i].code, code) }

  predicate Grants(v: Voucher, subtotal: nat, now: int) {
    v.expiresAt >= now && v.remaining > 0 && subtotal >= v.minOrder
  }

  predicate Offers(p: Promo, subtotal: nat, now: int) { p.expiresAt >= now && subtotal >= p.minOrder }

  predicate WithinVoucher(v: Voucher, subtotal: nat, amount: int) { amount <= v.amount && amount <= subtotal }

  predicate WithinPromo(p: Promo, subtotal: nat, amount: int) {
    100 * amount <= subtotal * p.percent && amount <= subtotal && (p.cap.Some? ==> amount <= p.cap.value)
  }

  /** A code can yield a voucher exactly when it names that voucher, ignoring case and surrounding blanks,
      and the voucher grants it; and a promo exactly when it names no voucher, names that promo, and the
      promo offers it. */
  lemma CodeAppliesIff(vouchers: seq<Voucher>, promos: seq<Promo>, code: string, subtotal: nat, now: int, i: nat)
    ensures
      (exists pick :: var r := ValidateCode(vouchers, promos, code, subtotal, now, pick); r.Ok? && r.value.kind == FromVoucher(i))
      <==> NamesVoucher(vouchers, code, i) && Grants(vouchers[i], subtotal, now)
    ensures
      (exists pick :: var r := ValidateCode(vouchers, promos, code, subtotal, now, pick); r.Ok? && r.value.kind == FromPromo(i))
      <==>
        (forall j: nat :: !NamesVoucher(vouchers, code, j)) && NamesPromo(promos, code, i) && Offers(promos[i], subtotal, now)
  {
    CodesNamed(code);
    hide Upper, Trim, Matches;
    var here := ValidateCode(vouchers, promos, code, subtotal, now, i);
    if NamesVoucher(vouchers, code, i) && Grants(vouchers[i], subtotal, now) {
      assert here.Ok? && here.value.kind == FromVoucher(i);
    }
    if (forall j: nat :: !NamesVoucher(vouchers, code, j)) && NamesPromo(promos, code, i) && Offers(promos[i], subtotal, now) {
      assert FindVoucher(vouchers, Upper(Trim(code)), i).None? by {
        var v := FindVoucher(vouchers, Upper(Trim(code)), i);
        assert v.Some? ==> NamesVoucher(vouchers, code, v.value);
      }
      assert here.Ok? && here.value.kind == FromPromo(i);
    }
    forall pick ensures
      var r := ValidateCode(vouchers, promos, code, subtotal, now, pick);
      && (r.Ok? && r.value.kind.FromVoucher? ==>
            NamesVoucher(vouchers, code, r.value.kind.row) && Grants(vouchers[r.value.kind.row], subtotal, now))
      && (r.Ok? && r.value.kind.FromPromo? ==>
            && (forall j: nat :: !NamesVoucher(vouchers, code, j))
            && NamesPromo(promos, code, r.value.kind.row) && Offers(promos[r.value.kind.row], subtotal, now))
    {
      assert forall j :: 0 <= j < |vouchers| ==> vouchers[j] in vouchers;
    }
  }

  /** Whichever row the query returns, a code that names a voucher is accepted if every voucher it names
      grants it, and a code is unknown exactly when it names nothing. */
  lemma CodeRefusedIff(vouchers: seq<Voucher>, promos: seq<Promo>, code: string, subtotal: nat, now: int, pick: nat)
    ensures
      var r := ValidateCode(vouchers, promos, code, subtotal, now, pick);
      && (r == Err(UnknownCode) <==> forall i: nat :: !NamesVoucher(vouchers, code, i) && !NamesPromo(promos, code, i))
      && ((exists i: nat :: NamesVoucher(vouchers, code, i)) ==>
          (forall i: nat :: NamesVoucher(vouchers, code, i) ==> Grants(vouchers[i], subtotal, now)) ==>
          r.Ok?)
  {
    CodesNamed(code);
    hide Upper, Trim, Matches;
    var wanted := Upper(Trim(code));
    var v, p := FindVoucher(vouchers, wanted, pick), FindPromo(promos, wanted, pick);
    assert v.Some? ==> NamesVoucher(vouchers, code, v.value);
    assert p.Some? ==> NamesPromo(promos, code, p.value);
    assert forall j :: 0 <= j < |vouchers| ==> vouchers[j] in vouchers;
    assert forall j :: 0 <= j < |promos| ==> promos[j] in promos;
  }

  ghost predicate NoVoucher(vouchers: seq<Voucher>, code: string) { forall i: nat :: !NamesVoucher(vouchers, code, i) }

  predicate VoucherRefuses(v: Voucher, subtotal: nat, now: int, error: DiscountError) {
    match error
    case Expired => v.expiresAt < now
    case UsedUp => v.expiresAt >= now && v.remaining <= 0
    case BelowMinimum => v.expiresAt >= now && v.remaining > 0 && subtotal < v.minOrder
    case UnknownCode => false
  }

  predicate PromoRefuses(p: Promo, subtotal: nat, now: int, error: DiscountError) {
    match error
    case Expired => p.expiresAt < now
    case BelowMinimum => p.expiresAt >= now && subtotal < p.minOrder
    case _ => false
  }

  lemma ByVoucher(
    vouchers: seq<Voucher>, promos: seq<Promo>, code: string, subtotal: nat, now: int, i: nat, error: DiscountError)
    requires NamesVoucher(vouchers, code, i)
    ensures ValidateCode(vouchers, promos, code, subtotal, now, i) == Err(error) <==> VoucherRefuses(vouchers[i], subtotal, now, error)
  {
    CodesNamed(code);
    hide Upper, Trim, Matches;
  }

  lemma ByPromo(
    vouchers: seq<Voucher>, promos: seq<Promo>, code: string, subtotal: nat, now: int, i: nat, error: DiscountError)
    requires NoVoucher(vouchers, code) && NamesPromo(promos, code, i)
    ensures ValidateCode(vouchers, promos, code, subtotal, now, i) == Err(error) <==> PromoRefuses(promos[i], subtotal, now, error)
  {
    CodesNamed(code);
    hide Upper, Trim, Matches;
    var v := FindVoucher(vouchers, Upper(Trim(code)), i);
    assert v.Some? ==> NamesVoucher(vouchers, code, v.value);
  }

  /** Whatever row the query returns, it answers as if it had been asked for one the code names. */
  lemma SomeRowAnswers(vouchers: seq<Voucher>, promos: seq<Promo>, code: string, subtotal: nat, now: int, pick: nat)
    returns (i: nat)
    requires ValidateCode(vouchers, promos, code, subtotal, now, pick) != Err(UnknownCode)
    ensures NamesVoucher(vouchers, code, i) || (NoVoucher(vouchers, code) && NamesPromo(promos, code, i))
    ensures ValidateCode(vouchers, promos, code, subtotal, now, i) == ValidateCode(vouchers, promos, code, subtotal, now, pick)
  {
    CodesNamed(code);
    hide Upper, Trim, Matches;
    var wanted := Upper(Trim(code));
    var v, p := FindVoucher(vouchers, wanted, pick), FindPromo(promos, wanted, pick);
    i := if v.Some? then v.value else p.value;
    assert v.Some? ==> NamesVoucher(vouchers, code, v.value);
    assert v.None? ==> NamesPromo(promos, code, p.value);
    if v.None? {
      NoVoucherAnyPick(vouchers, wanted, pick, i);
      forall j: nat ensures !NamesVoucher(vouchers, code, j) {
        assert j < |vouchers| ==> vouchers[j] in vouchers;
      }
    }
  }

  lemma NoVoucherAnyPick(rows: seq<Voucher>, wanted: string, a: nat, b: nat)
    requires FindVoucher(rows, wanted, a).None?
    ensures FindVoucher(rows, wanted, b).None?
  {
    assert forall i :: 0 <= i < |rows| ==> rows[i] in rows;
  }

  /** The reason given is the first that applies to a row the code names: expired, used up, or too small an
      order. */
  lemma RefusalReasonIff(
    vouchers: seq<Voucher>, promos: seq<Promo>, code: string, subtotal: nat, now: int, error: DiscountError)
    requires error != UnknownCode
    ensures (exists pick :: ValidateCode(vouchers, promos, code, subtotal, now, pick) == Err(error)) <==>
      || (exists i: nat :: NamesVoucher(vouchers, code, i) && VoucherRefuses(vouchers[i], subtotal, now, error))
      || (NoVoucher(vouchers, code)
          && (exists i: nat :: NamesPromo(promos, code, i) && PromoRefuses(promos[i], subtotal, now, error)))
  {
    hide ValidateCode, Matches, VoucherRefuses, PromoRefuses, NoVoucher;
    if pick: nat :| ValidateCode(vouchers, promos, code, subtotal, now, pick) == Err(error) {
      var i := SomeRowAnswers(vouchers, promos, code, subtotal, now, pick);
      if NamesVoucher(vouchers, code, i) {
        ByVoucher(vouchers, promos, code, subtotal, now, i, error);
      } else {
        ByPromo(vouchers, promos, code, subtotal, now, i, error);
      }
    }
    if i: nat :| NamesVoucher(vouchers, code, i) && VoucherRefuses(vouchers[i], subtotal, now, error) {
      ByVoucher(vouchers, promos, code, subtotal, now, i, error);
    }
    if i: nat :| NoVoucher(vouchers, code) && NamesPromo(promos, code, i) && PromoRefuses(promos[i], subtotal, now, error) {
      ByPromo(vouchers, promos, code, subtotal, now, i, error);
    }
  }

  /** The discount is the largest amount its row allows: no more than the voucher, or the share and the
      cap of the promo, and never more than the cart. */
  lemma DiscountIsLargestAllowed(
    vouchers: seq<Voucher>, promos: seq<Promo>, code: string, subtotal: nat, now: int, pick: nat, amount: int)
    requires ValidateCode(vouchers, promos, code, subtotal, now, pick).Ok?
    ensures
      var d := ValidateCode(vouchers, promos, code, subtotal, now, pick).value;
      match d.kind
      case FromVoucher(i) =>
        i < |vouchers| && d.code == vouchers[i].code && (amount <= d.amount <==> WithinVoucher(vouchers[i], subtotal, amount))
      case FromPromo(i) =>
        i < |promos| && d.code == promos[i].code && (amount <= d.amount <==> WithinPromo(promos[i], subtotal, amount))
  {
    hide Upper, Trim;
    var d := ValidateCode(vouchers, promos, code, subtotal, now, pick).value;
    if d.kind.FromPromo? {
      ShareIsLargest(subtotal, promos[d.kind.row].percent, amount);
    }
  }

  lemma ShareIsLargest(subtotal: nat, percent: Percent, amount: int)
    ensures amount <= subtotal * percent / 100 <==> 100 * amount <= subtotal * percent
  {
    var share := subtotal * percent;
    assert share == 100 * (share / 100) + share % 100;
  }

  lemma DiscountWithinSubtotal(
    vouchers: seq<Voucher>, promos: seq<Promo>, code: string, subtotal: nat, now: int, pick: nat)
    requires ValidateCode(vouchers, promos, code, subtotal, now, pick).Ok?
    ensures 0 <= ValidateCode(vouchers, promos, code, subtotal, now, pick).value.amount <= subtotal
  {
  }

  lemma PercentMonotone(low: nat, high: nat, percent: Percent)
    requires low <= high
    ensures low * percent / 100 <= high * percent / 100 <= low * percent / 100 + (high - low)
    ensures low * percent / 100 <= low
  {
    var a, b := low * percent, high * percent;
    assert a <= b && b <= a + 100 * (high - low) && a <= 100 * low by {
      assert b - a == (high - low) * percent;
      assert (high - low) * percent <= (high - low) * 100;
      assert (high - low) * percent >= 0;
      assert low * percent <= low * 100;
    }
    DivShift(a, high - low);
  }

  lemma DivShift(a: nat, k: nat)
    ensures (a + 100 * k) / 100 == a / 100 + k
  {
  }

  /** Adding to the cart never makes a checkout cheaper while the same code still applies. */
  lemma TotalNeverFallsAsSubtotalGrows(
    vouchers: seq<Voucher>, promos: seq<Promo>, code: string, low: nat, high: nat, now: int, pick: nat,
    delivery: Delivery, fees: Fees)
    requires low <= high
    requires ValidateCode(vouchers, promos, code, low, now, pick).Ok?
    ensures ValidateCode(vouchers, promos, code, high, now, pick).Ok?
    ensures
      var dLow := ValidateCode(vouchers, promos, code, low, now, pick).value.amount;
      var dHigh := ValidateCode(vouchers, promos, code, high, now, pick).value.amount;
      && dLow <= dHigh
      && CalculateTotals(low, delivery, fees, dLow).total <= CalculateTotals(high, delivery, fees, dHigh).total
  {
    var dLow := ValidateCode(vouchers, promos, code, low, now, pick).value;
    var dHigh := ValidateCode(vouchers, promos, code, high, now, pick).value;
    if dLow.kind.FromPromo? {
      PercentMonotone(low, high, promos[dLow.kind.row].percent);
    }
    assert low - dLow.amount <= high - dHigh.amount;
  }
}
