/**
 * The bill record: the bounds on its description and amount, the date that defaults to today,
 * and the two-phase save that lets a new bill's image be stored under the bill's own id.
 */
module Bills {
  import opened Common
  import opened Text

  // ---------------------------------------------------------------- amount

  /** `10^n`. */
  function Pow10(n: nat): (p: nat)
    ensures p >= 1
  {
    if n == 0 then 1 else 10 * Pow10(n - 1)
  }

  lemma {:induction false} Pow10Add(a: nat, b: nat)
    ensures Pow10(a + b) == Pow10(a) * Pow10(b)
  {
    if a > 0 {
      Pow10Add(a - 1, b);
      assert Pow10(a + b) == 10 * Pow10(a - 1 + b);
    }
  }

  lemma Pow10Monotone(a: nat, b: nat)
    requires a <= b
    ensures Pow10(a) <= Pow10(b)
  {
    Pow10Add(a, b - a);
  }

  /** The number of digits of a coefficient, as Python's `Decimal.as_tuple()` lists them (zero has one). */
  function NumDigits(c: nat): (n: nat)
    ensures n >= 1
  {
    if c < 10 then 1 else 1 + NumDigits(c / 10)
  }

  /** A coefficient has at most `k` digits exactly when it is below `10^k`. */
  lemma {:induction false} DigitsBound(c: nat, k: nat)
    requires k >= 1
    ensures NumDigits(c) <= k <==> c < Pow10(k)
  {
    if c >= 10 {
      if k == 1 {
        assert Pow10(1) == 10;
        assert NumDigits(c) >= 2 by { assert NumDigits(c / 10) >= 1; }
      } else {
        DigitsBound(c / 10, k - 1);
        assert c / 10 < Pow10(k - 1) <==> c < Pow10(k);
      }
    } else {
      Pow10Monotone(1, k);
      assert Pow10(1) == 10;
    }
  }

  /** A decimal number as `Decimal.as_tuple()` gives it: sign, coefficient and exponent. */
  datatype Decimal = Decimal(negative: bool, coefficient: nat, exponent: int)

  const MaxDigits := 10
  const DecimalPlaces := 2

  /** The digit and decimal-place counts the precision validator derives from a decimal. */
  function Counts(d: Decimal): (r: (nat, nat))
  {
    var len := NumDigits(d.coefficient);
    if d.exponent >= 0 then (len + d.exponent, 0)
    else if -d.exponent > len then (-d.exponent, -d.exponent)
    else (len, -d.exponent)
  }

  /** `max_digits=10, decimal_places=2`: at most 10 digits, 2 decimals and 8 whole digits. */
  predicate PrecisionOk(d: Decimal)
  {
    var (digits, decimals) := Counts(d);
    digits <= MaxDigits && decimals <= DecimalPlaces && digits - decimals <= MaxDigits - DecimalPlaces
  }

  /** `MinValueValidator(0)`: only a value below zero fails, so `-0` passes. */
  predicate NonNegative(d: Decimal)
  {
    !d.negative || d.coefficient == 0
  }

  predicate AmountOk(d: Decimal)
  {
    PrecisionOk(d) && NonNegative(d)
  }

  /** The magnitude in hundredths, for a decimal with at most two places. */
  function Cents(d: Decimal): nat
    requires d.exponent >= -2
  {
    d.coefficient * Pow10(d.exponent + 2)
  }

  lemma MulCancel(c: nat, q: nat, p: nat)
    requires p >= 1
    ensures c * p < q * p <==> c < q
  {
    if c < q {
      assert q * p == c * p + (q - c) * p;
      assert (q - c) * p == p + (q - c - 1) * p;
    } else {
      assert c * p == q * p + (c - q) * p;
    }
  }

  lemma ScaleBound(c: nat, m: nat, n: nat)
    requires m <= n
    ensures c * Pow10(m) < Pow10(n) <==> c < Pow10(n - m)
  {
    Pow10Add(n - m, m);
    MulCancel(c, Pow10(n - m), Pow10(m));
  }

  /**
   * A non-zero amount is accepted exactly when it is not negative, has at most two decimal
   * places and stays below 10^10 hundredths, that is below 10^8 in its whole part.
   */
  lemma AmountExact(d: Decimal)
    requires d.coefficient > 0
    ensures AmountOk(d) <==> !d.negative && d.exponent >= -2 && Cents(d) < Pow10(10)
  {
    if d.exponent >= 0 {
      WholeAmountExact(d.coefficient, d.exponent);
    } else if -d.exponent > NumDigits(d.coefficient) {
      if d.exponent >= -2 {
        DigitsBound(d.coefficient, 1);
        assert Pow10(1) == 10;
      }
    } else if d.exponent >= -2 {
      DigitsBound(d.coefficient, 8 - d.exponent);
      ScaleBound(d.coefficient, d.exponent + 2, 10);
    }
  }

  /** With a non-negative exponent the whole digits alone decide. */
  lemma WholeAmountExact(c: nat, e: nat)
    requires c > 0
    ensures NumDigits(c) + e <= 8 <==> c * Pow10(e + 2) < Pow10(10)
  {
    if e <= 7 {
      DigitsBound(c, 8 - e);
      ScaleBound(c, e + 2, 10);
    } else {
      Pow10Monotone(10, e + 2);
      assert c * Pow10(e + 2) >= Pow10(e + 2);
    }
  }

  /** A zero amount passes with between two decimal places and seven trailing zeros. */
  lemma ZeroAmountExact(d: Decimal)
    requires d.coefficient == 0
    ensures AmountOk(d) <==> -2 <= d.exponent <= 7
  {
  }

  // ---------------------------------------------------------------- description and date

  const MaxDescription := 200

  predicate DescriptionOk(s: string)
  {
    |s| <= MaxDescription
  }

  /** The bill date: the one given, else today's. */
  function BillDate(date: Option<string>, today: string): (r: string)
    ensures date.Some? ==> r == date.value
    ensures date.None? ==> r == today
  {
    GetOr(date, today)
  }

  // ---------------------------------------------------------------- the two-phase save

  /** The image field of an instance: empty, a file not yet written, or a stored path. */
  datatype Image = NoImage | Pending(filename: string) | Stored(path: string)

  /** `bill_image_upload_path`: the instance's id as Python prints it, `None` before the first save. */
  function UploadPath(id: Option<nat>, filename: string): string
  {
    "bills/" + (if id.Some? then NatToString(id.value) else "None") + "/" + filename
  }

  /** The position of the first `/` in a string, or its length when there is none. */
  function FirstSlash(x: string): (n: nat)
    ensures n <= |x|
  {
    if x == [] || x[0] == '/' then 0 else 1 + FirstSlash(x[1..])
  }

  lemma {:induction false} FirstSlashAfter(s: string, rest: string)
    requires forall i :: 0 <= i < |s| ==> s[i] != '/'
    ensures FirstSlash(s + "/" + rest) == |s|
  {
    if s != [] {
      assert (s + "/" + rest)[1..] == s[1..] + "/" + rest;
      FirstSlashAfter(s[1..], rest);
    }
  }

  /** Paths of saved bills name the bill: different bills or files never share a path, nor a path of an unsaved one. */
  lemma UploadPathExact(a: nat, b: Option<nat>, f: string, g: string)
    ensures UploadPath(Some(a), f) == UploadPath(b, g) <==> b == Some(a) && f == g
  {
    var s := NatToString(a);
    var t := if b.Some? then NatToString(b.value) else "None";
    var x := s + "/" + f;
    var y := t + "/" + g;
    assert UploadPath(Some(a), f) == "bills/" + x;
    assert UploadPath(b, g) == "bills/" + y;
    if UploadPath(Some(a), f) == UploadPath(b, g) {
      assert x == ("bills/" + x)[6..] == ("bills/" + y)[6..] == y;
      FirstSlashAfter(s, f);
      FirstSlashAfter(t, g);
      assert s == x[..|s|] == y[..|t|] == t;
      if b.Some? {
        NatToStringInjective(a, b.value);
      }
      assert f == x[|s| + 1..] == y[|t| + 1..] == g;
    }
  }

  /** Writing the instance's file on save: a pending file goes to the path built from `id`. */
  function Commit(image: Image, id: Option<nat>): Image
  {
    if image.Pending? then Stored(UploadPath(id, image.filename)) else image
  }

  /** A stored bill row. */
  datatype BillRow = BillRow(description: string, amount: Decimal, date: string, image: Image)

  /** One statement sent to the database. */
  datatype Write = Insert(id: nat, row: BillRow) | Update(id: nat, row: BillRow)

  /** The bill table, its identity counter and the statements issued so far. */
  class BillTable {
    var rows: map<nat, BillRow>
    var next: nat
    var log: seq<Write>

    ghost predicate Valid()
      reads this
    {
      forall k :: k in rows ==> k < next
    }

    constructor ()
      ensures Valid() && rows == map[] && log == []
    {
      rows := map[];
      next := 0;
      log := [];
    }
  }

  /** A bill instance as the application holds it. */
  class Bill {
    var id: Option<nat>
    var description: string
    var amount: Decimal
    var date: string
    var image: Image

    constructor (description: string, amount: Decimal, date: Option<string>, image: Image, today: string)
      ensures id.None? && this.description == description && this.amount == amount
      ensures this.date == BillDate(date, today) && this.image == image
    {
      id := None;
      this.description := description;
      this.amount := amount;
      this.date := BillDate(date, today);
      this.image := image;
    }

    /**
     * The framework's `Model.save`: an instance without id is inserted under a fresh id; with
     * `force_insert` an existing id fails as a duplicate key; otherwise the row is written under
     * its id. The instance's file is written first, to the path built from the id it has then.
     */
    method SaveRow(table: BillTable, forceInsert: bool) returns (ok: bool)
      requires table.Valid()
      modifies this, table
      ensures table.Valid()
      ensures old(id).None? ==>
                ok && id == Some(old(table.next)) && table.next == old(table.next) + 1
                && image == Commit(old(image), old(id))
                && table.rows == old(table.rows)[id.value := BillRow(description, amount, date, image)]
                && table.log == old(table.log) + [Insert(id.value, table.rows[id.value])]
      ensures old(id).Some? && forceInsert && old(id).value in old(table.rows) ==>
                !ok && unchanged(this) && unchanged(table)
      ensures old(id).Some? && !(forceInsert && old(id).value in old(table.rows)) ==>
                ok && id == old(id) && image == Commit(old(image), old(id))
                && table.rows == old(table.rows)[id.value := BillRow(description, amount, date, image)]
                && table.next == (if id.value < old(table.next) then old(table.next) else id.value + 1)
                && table.log == old(table.log) + [if id.value in old(table.rows) then Update(id.value, table.rows[id.value])
                                                  else Insert(id.value, table.rows[id.value])]
      ensures description == old(description) && amount == old(amount) && date == old(date)
    {
      if id.None? {
        image := Commit(image, id);
        id := Some(table.next);
        table.next := table.next + 1;
      } else if forceInsert && id.value in table.rows {
        return false;
      } else {
        image := Commit(image, id);
        if id.value >= table.next {
          table.next := id.value + 1;
        }
      }
      var row := BillRow(description, amount, date, image);
      table.log := table.log + [if id.value in table.rows then Update(id.value, row) else Insert(id.value, row)];
      table.rows := table.rows[id.value := row];
      ok := true;
    }

    /**
     * `Bill.save`: a new bill is first inserted without its image, so that it gets an id, and
     * then saved again with the image and without `force_insert`; an existing bill is saved once.
     */
    method Save(table: BillTable, forceInsert: bool) returns (ok: bool)
      requires table.Valid()
      modifies this, table
      ensures table.Valid()
      ensures old(id).None? ==>
                ok && id == Some(old(table.next)) && table.next == old(table.next) + 1
                && image == Commit(old(image), id)
                && table.rows == old(table.rows)[id.value := BillRow(description, amount, date, image)]
                && table.log == old(table.log) + [Insert(id.value, BillRow(description, amount, date, NoImage)),
                                                  Update(id.value, table.rows[id.value])]
      ensures old(id).Some? ==> id == old(id) && |table.log| <= |old(table.log)| + 1
      ensures old(id).Some? && !forceInsert ==>
                ok && image == Commit(old(image), id)
                && table.rows == old(table.rows)[id.value := BillRow(description, amount, date, image)]
                && |table.log| == |old(table.log)| + 1
      ensures description == old(description) && amount == old(amount) && date == old(date)
    {
      var force := forceInsert;
      if id.None? {
        var saved := image;
        image := NoImage;
        ok := SaveRow(table, force);
        image := saved;
        force := false;
      }
      ok := SaveRow(table, force);
    }
  }

  /** Saved in one step, a new bill's image would land under `bills/None/`; the second step puts it under the id. */
  lemma TwoPhaseNamesTheBill(id: nat, filename: string)
    ensures Commit(Pending(filename), Some(id)) == Stored("bills/" + NatToString(id) + "/" + filename)
    ensures Commit(Pending(filename), Some(id)) != Commit(Pending(filename), None)
  {
    UploadPathExact(id, None, filename, filename);
  }
}
