/** Instance ids are a widget id, a dash and a serial number. */
module InstanceIds {

  function Digit(n: nat): char
    requires n < 10
  {
    "0123456789"[n]
  }

  function Decimal(n: nat): (s: string)
    ensures |s| >= 1 && (|s| == 1 <==> n < 10)
  {
    if n < 10 then [Digit(n)] else Decimal(n / 10) + [Digit(n % 10)]
  }

  function InstanceId(widgetId: string, n: nat): string {
    widgetId + "-" + Decimal(n)
  }

  lemma {:induction false} DecimalHasNoDash(n: nat)
    ensures '-' !in Decimal(n)
  {
    if n >= 10 { DecimalHasNoDash(n / 10); }
  }

  lemma DigitInjective(a: nat, b: nat)
    requires a < 10 && b < 10 && Digit(a) == Digit(b)
    ensures a == b
  {
  }

  lemma {:induction false} DecimalInjective(a: nat, b: nat)
    requires Decimal(a) == Decimal(b)
    ensures a == b
  {
    var s, t := Decimal(a), Decimal(b);
    DigitInjective(a % 10, b % 10) by {
      assert s[|s| - 1] == Digit(a % 10) && t[|t| - 1] == Digit(b % 10);
    }
    if a >= 10 {
      assert s[..|s| - 1] == Decimal(a / 10) && t[..|t| - 1] == Decimal(b / 10);
      DecimalInjective(a / 10, b / 10);
    }
  }

  /** Where the last dash is. */
  function LastDash(s: string): nat {
    if s == "" then 0 else if s[|s| - 1] == '-' then |s| - 1 else LastDash(s[..|s| - 1])
  }

  lemma {:induction false} LastDashIs(w: string, d: string)
    requires '-' !in d
    ensures LastDash(w + "-" + d) == |w|
  {
    var s := w + "-" + d;
    if d == "" {
      assert s == w + "-";
    } else {
      var n := |d| - 1;
      assert d[n] in d;
      assert s[..|s| - 1] == w + "-" + d[..n];
      LastDashIs(w, d[..n]);
    }
  }

  /** The serial number can be read off an id: the dash before it is the last one. */
  lemma InstanceIdInjective(v: string, a: nat, w: string, b: nat)
    requires InstanceId(v, a) == InstanceId(w, b)
    ensures v == w && a == b
  {
    var s := InstanceId(v, a);
    DecimalHasNoDash(a);
    DecimalHasNoDash(b);
    LastDashIs(v, Decimal(a));
    LastDashIs(w, Decimal(b));
    assert v == s[..|v|] && w == s[..|w|];
    assert Decimal(a) == s[|v| + 1..] && Decimal(b) == s[|w| + 1..];
    DecimalInjective(a, b);
  }
}
