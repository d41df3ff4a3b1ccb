/** Addresses and device names made from port numbers. */
module Names {
  import opened Mesh

  function Digit(n: nat): char
    requires n < 10
  {
    ['0', '1', '2', '3', '4', '5', '6', '7', '8', '9'][n]
  }

  function Decimal(n: nat): (s: string)
    ensures |s| > 0
  {
    if n < 10 then [Digit(n)] else Decimal(n / 10) + [Digit(n % 10)]
  }

  const MAIN_SIDE := 1

  function UnderlayIP(port: nat): string { "169.254.83." + Decimal(port) }

  function TunnelIP(port: nat): string { "169.254.84." + Decimal(port) }

  function VXLANMain(port: nat): string { "mshvx" + Decimal(port) }

  lemma DigitInjective(m: nat, n: nat)
    requires m < 10 && n < 10 && Digit(m) == Digit(n)
    ensures m == n
  {
  }

  lemma {:induction false} DecimalInjective(m: nat, n: nat)
    requires Decimal(m) == Decimal(n)
    ensures m == n
  {
    var s, t := Decimal(m), Decimal(n);
    assert s[|s| - 1] == Digit(m % 10) && t[|t| - 1] == Digit(n % 10);
    DigitInjective(m % 10, n % 10);
    if m >= 10 && n >= 10 {
      assert s[..|s| - 1] == Decimal(m / 10) && t[..|t| - 1] == Decimal(n / 10);
      DecimalInjective(m / 10, n / 10);
    }
  }

  /** Different ports have different tunnel addresses, underlay addresses and tunnel ports. */
  lemma NamesInjective(m: nat, n: nat)
    requires UnderlayIP(m) == UnderlayIP(n) || TunnelIP(m) == TunnelIP(n) || VXLANMain(m) == VXLANMain(n)
    ensures m == n
  {
    if UnderlayIP(m) == UnderlayIP(n) {
      Suffix("169.254.83.", Decimal(m), Decimal(n));
    } else if TunnelIP(m) == TunnelIP(n) {
      Suffix("169.254.84.", Decimal(m), Decimal(n));
    } else {
      Suffix("mshvx", Decimal(m), Decimal(n));
    }
    DecimalInjective(m, n);
  }

  /** The names of the first leaf's link, written out. */
  lemma FirstLeaf()
    ensures UnderlayIP(MAIN_SIDE) == "169.254.83.1" && UnderlayIP(MAIN_PORT_FIRST) == "169.254.83.2"
    ensures TunnelIP(MAIN_SIDE) == "169.254.84.1" && TunnelIP(MAIN_PORT_FIRST) == "169.254.84.2"
    ensures VXLANMain(MAIN_PORT_FIRST) == "mshvx2" && UnderlayIP(WG_MAX_PORT) == "169.254.83.254"
  {
    assert Decimal(1) == "1" && Decimal(2) == "2";
    assert Decimal(254) == Decimal(25) + "4" && Decimal(25) == Decimal(2) + "5";
  }

  lemma Suffix(p: string, a: string, b: string)
    requires p + a == p + b
    ensures a == b
  {
    assert (p + a)[|p|..] == a && (p + b)[|p|..] == b;
  }
}
