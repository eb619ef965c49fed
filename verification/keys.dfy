/** The text keys by which campaign messages are told apart. */
module DedupeKeys {

  function Pow10(n: nat): nat { if n == 0 then 1 else 10 * Pow10(n - 1) }

  function Digit(d: nat): char
    requires d < 10
  {
    "0123456789"[d]
  }

  lemma DigitInjective(a: nat, b: nat)
    requires a < 10 && b < 10 && Digit(a) == Digit(b)
    ensures a == b
  {
  }

  /** Zero-padded decimal of a fixed width. */
  function Fixed(n: nat, width: nat): (s: string)
    ensures |s| == width
  {
    if width == 0 then "" else Fixed(n / 10, width - 1) + [Digit(n % 10)]
  }

  /** Plain decimal. */
  function Decimal(n: nat): (s: string)
    ensures |s| >= 1
    ensures forall i :: 0 <= i < |s| ==> '0' <= s[i] <= '9'
  {
    if n < 10 then [Digit(n)] else Decimal(n / 10) + [Digit(n % 10)]
  }

  lemma {:induction false} FixedInjective(a: nat, b: nat, width: nat)
    requires a < Pow10(width) && b < Pow10(width) && Fixed(a, width) == Fixed(b, width)
    ensures a == b
  {
    if width > 0 {
      var s, t := Fixed(a, width), Fixed(b, width);
      assert s[width - 1] == Digit(a % 10) && t[width - 1] == Digit(b % 10);
      DigitInjective(a % 10, b % 10);
      assert s[..width - 1] == Fixed(a / 10, width - 1) && t[..width - 1] == Fixed(b / 10, width - 1);
      FixedInjective(a / 10, b / 10, width - 1);
    }
  }

  lemma {:induction false} DecimalInjective(a: nat, b: nat)
    requires Decimal(a) == Decimal(b)
    ensures a == b
  {
    var s, t := Decimal(a), Decimal(b);
    var n := |s| - 1;
    assert s[n] == Digit(a % 10) && t[n] == Digit(b % 10);
    DigitInjective(a % 10, b % 10);
    if a >= 10 && b >= 10 {
      assert s[..n] == Decimal(a / 10) && t[..n] == Decimal(b / 10);
      DecimalInjective(a / 10, b / 10);
    }
  }

  // ---------- keys ----------

  datatype Date = Date(year: nat, month: nat, day: nat) {
    predicate Valid() { 1 <= year <= 9999 && 1 <= month <= 12 && 1 <= day <= 31 }
  }

  /** What a message is about: a membership's end date, or a client's ISO week. */
  datatype Occasion =
    | Expiring(membership: string, endsOn: Date)
    | Winback(client: string, isoYear: nat, isoWeek: nat)
  {
    predicate Valid() {
      match this
      case Expiring(membership, endsOn) => IsUuid(membership) && endsOn.Valid()
      case Winback(client, _, isoWeek) => IsUuid(client) && 1 <= isoWeek <= 53
    }
  }

  predicate IsUuid(s: string) {
    |s| == 36 && forall i :: 0 <= i < |s| ==> '0' <= s[i] <= '9' || 'a' <= s[i] <= 'f' || s[i] == '-'
  }

  function IsoDate(d: Date): string { Fixed(d.year, 4) + "-" + Fixed(d.month, 2) + "-" + Fixed(d.day, 2) }

  function WeekStamp(year: nat, week: nat): string { Decimal(year) + "-W" + Fixed(week, 2) }

  function Campaign(o: Occasion): string { if o.Expiring? then "membership_expiring" else "winback" }

  function Subject(o: Occasion): string {
    match o
    case Expiring(membership, _) => membership
    case Winback(client, _, _) => client
  }

  function Stamp(o: Occasion): string {
    match o
    case Expiring(_, endsOn) => IsoDate(endsOn)
    case Winback(_, year, week) => WeekStamp(year, week)
  }

  function Key(o: Occasion): string { Campaign(o) + (":" + (Subject(o) + (":" + Stamp(o)))) }

  predicate NoColon(s: string) { forall i :: 0 <= i < |s| ==> s[i] != ':' }

  /** Text before the first colon is determined by the whole. */
  lemma ColonSplits(a: string, x: string, b: string, y: string)
    requires NoColon(a) && NoColon(b) && a + (":" + x) == b + (":" + y)
    ensures a == b && x == y
  {
    var s, t := a + (":" + x), b + (":" + y);
    assert s[|a|] == ':' && t[|b|] == ':';
    assert forall i :: 0 <= i < |a| ==> s[i] == a[i];
    assert forall i :: 0 <= i < |b| ==> t[i] == b[i];
    assert |a| == |b|;
    assert s[..|a|] == a && t[..|a|] == b;
    assert s[|a| + 1..] == x && t[|a| + 1..] == y;
  }

  lemma Pow10Values()
    ensures Pow10(2) == 100 && Pow10(4) == 10000
  {
    assert Pow10(1) == 10 && Pow10(3) == 1000;
  }

  lemma IsoDateInjective(a: Date, b: Date)
    requires a.Valid() && b.Valid() && IsoDate(a) == IsoDate(b)
    ensures a == b
  {
    Pow10Values();
    var s, t := IsoDate(a), IsoDate(b);
    assert s[..4] == Fixed(a.year, 4) && t[..4] == Fixed(b.year, 4);
    assert s[5..7] == Fixed(a.month, 2) && t[5..7] == Fixed(b.month, 2);
    assert s[8..] == Fixed(a.day, 2) && t[8..] == Fixed(b.day, 2);
    FixedInjective(a.year, b.year, 4);
    FixedInjective(a.month, b.month, 2);
    FixedInjective(a.day, b.day, 2);
  }

  lemma WeekStampInjective(year: nat, week: nat, year': nat, week': nat)
    requires 1 <= week <= 53 && 1 <= week' <= 53 && WeekStamp(year, week) == WeekStamp(year', week')
    ensures year == year' && week == week'
  {
    Pow10Values();
    var s, t := WeekStamp(year, week), WeekStamp(year', week');
    var n := |s| - 4;
    assert s[..n] == Decimal(year) && t[..n] == Decimal(year');
    assert s[n + 2..] == Fixed(week, 2) && t[n + 2..] == Fixed(week', 2);
    DecimalInjective(year, year');
    FixedInjective(week, week', 2);
  }

  lemma CampaignsDiffer(a: Occasion, b: Occasion)
    ensures NoColon(Campaign(a))
    ensures Campaign(a) == Campaign(b) ==> a.Expiring? == b.Expiring?
  {
    assert |"membership_expiring"| == 19 && |"winback"| == 7;
  }

  lemma OneDigit(n: nat)
    requires n < 10
    ensures Fixed(n, 2) == ['0', Digit(n)] && Decimal(n) == [Digit(n)]
  {
    assert n / 10 == 0 && n % 10 == n;
    assert Fixed(0, 1) == "" + [Digit(0)];
    assert Fixed(n, 2) == Fixed(0, 1) + [Digit(n)];
  }

  /** Weeks have two digits; the parts of a key are the campaign's name, the subject and the stamp. */
  lemma KeysRead(client: string, year: nat, week: nat)
    requires week < 10
    ensures Key(Winback(client, year, week))
         == "winback" + (":" + (client + (":" + (Decimal(year) + "-W" + ['0', Digit(week)]))))
  {
    OneDigit(week);
  }

  /** Dates read year, month, day. */
  lemma DatesRead(year: nat, month: nat, day: nat)
    requires month < 10 && day < 10
    ensures IsoDate(Date(year, month, day)) == Fixed(year, 4) + "-" + ['0', Digit(month)] + "-" + ['0', Digit(day)]
  {
    OneDigit(month);
    OneDigit(day);
  }

  lemma ExpiringKeysRead(membership: string, endsOn: Date)
    ensures Key(Expiring(membership, endsOn))
         == "membership_expiring" + (":" + (membership + (":" + IsoDate(endsOn))))
  {
  }

  lemma SameKeySameOccasion(a: Occasion, b: Occasion)
    requires a.Valid() && b.Valid() && Key(a) == Key(b)
    ensures a == b
  {
    CampaignsDiffer(a, b);
    CampaignsDiffer(b, a);
    ColonSplits(Campaign(a), Subject(a) + (":" + Stamp(a)), Campaign(b), Subject(b) + (":" + Stamp(b)));
    ColonSplits(Subject(a), Stamp(a), Subject(b), Stamp(b));
    if a.Expiring? {
      IsoDateInjective(a.endsOn, b.endsOn);
    } else {
      WeekStampInjective(a.isoYear, a.isoWeek, b.isoYear, b.isoWeek);
    }
  }

  /** Different occasions have different keys: no message is suppressed by another one's claim. */
  lemma KeysAreInjective(a: Occasion, b: Occasion)
    requires a.Valid() && b.Valid()
    ensures Key(a) == Key(b) <==> a == b
  {
    if Key(a) == Key(b) {
      SameKeySameOccasion(a, b);
    }
  }
}
