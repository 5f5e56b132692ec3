/**
Interface names of the namespace networks.

Linux limits interface names to 15 characters, so the bridge and VXLAN names carry a
48-bit truncated hash of the namespace and the veth names an eight-character prefix of the
service. A `char` stands for one byte of the UTF-8 name.
*/
module IfaceNames {
  const U64_SIZE := 0x1_0000_0000_0000_0000
  const HASH_SIZE := 0x1_0000_0000_0000
  const IFNAMSIZ_CHARS := 15

  // ---------- the hash ----------

  function Pow31(n: nat): nat {
    if n == 0 then 1 else 31 * Pow31(n - 1)
  }

  /** The exact base-31 polynomial of a name, with no wrap-around. */
  function Polynomial(s: string): nat {
    if s == "" then 0 else s[0] as int * Pow31(|s| - 1) + Polynomial(s[1..])
  }

  /** The rolling 64-bit hash, truncated to 48 bits as the name builders do. */
  method TruncatedHash(s: string) returns (truncated: nat)
    ensures truncated == Polynomial(s) % HASH_SIZE
  {
    var hash := 0;
    for i := 0 to |s|
      invariant 0 <= hash < U64_SIZE
      invariant hash == Polynomial(s[..i]) % U64_SIZE
    {
      var c := s[i] as int;
      Horner(s[..i], s[i]);
      assert s[..i] + [s[i]] == s[..i + 1];
      WrapStep(Polynomial(s[..i]), c);
      hash := ((hash * 31) % U64_SIZE + c) % U64_SIZE;
    }
    assert s[..|s|] == s;
    LowBits(Polynomial(s));
    truncated := hash % HASH_SIZE;
  }

  lemma WrapShift(k: nat, y: nat)
    ensures (U64_SIZE * k + y) % U64_SIZE == y % U64_SIZE
  {
  }

  lemma WrapStep(p: nat, c: nat)
    ensures ((p % U64_SIZE * 31) % U64_SIZE + c) % U64_SIZE == (p * 31 + c) % U64_SIZE
  {
    var q, r := p / U64_SIZE, p % U64_SIZE * 31;
    var k := q * 31 + r / U64_SIZE;
    assert p * 31 + c == U64_SIZE * k + (r % U64_SIZE + c);
    WrapShift(k, r % U64_SIZE + c);
  }

  lemma LowBits(p: nat)
    ensures p % U64_SIZE % HASH_SIZE == p % HASH_SIZE
  {
    assert U64_SIZE == HASH_SIZE * 65536;
  }

  lemma Distribute(c: int, p: int, y: int, x: int)
    ensures (c * p + y) * x == c * (p * x) + y * x
  {
    assert (c * p) * x == c * (p * x);
  }

  lemma {:induction false} Split(a: string, b: string)
    ensures Polynomial(a + b) == Polynomial(a) * Pow31(|b|) + Polynomial(b)
  {
    if a == "" {
      assert a + b == b;
    } else {
      Split(a[1..], b);
      assert (a + b)[1..] == a[1..] + b;
      PowAdd(|a| - 1, |b|);
      Distribute(a[0] as int, Pow31(|a| - 1), Polynomial(a[1..]), Pow31(|b|));
    }
  }

  lemma {:induction false} PowAdd(m: nat, n: nat)
    ensures Pow31(m + n) == Pow31(m) * Pow31(n)
  {
    if m > 0 {
      PowAdd(m - 1, n);
      TimesThirtyOne(Pow31(m - 1), Pow31(n));
    }
  }

  lemma TimesThirtyOne(x: int, y: int)
    ensures 31 * (x * y) == (31 * x) * y
  {
  }

  lemma Horner(s: string, c: char)
    ensures Polynomial(s + [c]) == Polynomial(s) * 31 + c as int
  {
    Split(s, [c]);
    assert [c][1..] == "";
  }

  // ---------- when two names hash alike ----------

  /** 31 is invertible modulo 2^48, so multiplying by it loses nothing. */
  lemma Invertible(x: int)
    requires (x * 31) % HASH_SIZE == 0
    ensures x % HASH_SIZE == 0
  {
    var inverse := 0xdef7_bdef_7bdf;
    assert 31 * inverse == 1 + 27 * HASH_SIZE;
    var q := (x * 31) / HASH_SIZE;
    assert x * 31 * inverse == x + 27 * x * HASH_SIZE;
    assert x == HASH_SIZE * (q * inverse - 27 * x);
  }

  /** Whatever follows the differing byte cannot bring the two polynomials together again. */
  lemma {:induction false} StayApart(a: string, x: char, y: char, b: string)
    requires x != y
    ensures (Polynomial(a + [x] + b) - Polynomial(a + [y] + b)) % HASH_SIZE != 0
  {
    if b == "" {
      assert a + [x] + b == a + [x] && a + [y] + b == a + [y];
      Horner(a, x);
      Horner(a, y);
    } else {
      var front, c := b[..|b| - 1], b[|b| - 1];
      assert a + [x] + b == (a + [x] + front) + [c] && a + [y] + b == (a + [y] + front) + [c];
      Horner(a + [x] + front, c);
      Horner(a + [y] + front, c);
      var d := Polynomial(a + [x] + front) - Polynomial(a + [y] + front);
      assert Polynomial(a + [x] + b) - Polynomial(a + [y] + b) == d * 31;
      StayApart(a, x, y, front);
      if (d * 31) % HASH_SIZE == 0 {
        Invertible(d);
        assert false;
      }
    }
  }

  lemma EqualRemainders(p: int, q: int)
    requires p % HASH_SIZE == q % HASH_SIZE
    ensures (p - q) % HASH_SIZE == 0
  {
  }

  // ---------- rendered names ----------

  const HEX_DIGITS := "0123456789abcdef"

  /** The lowest `width` hexadecimal digits, padded with zeros. */
  function Hex(width: nat, n: nat): (r: string)
    ensures |r| == width
  {
    if width == 0 then "" else Hex(width - 1, n / 16) + [HEX_DIGITS[n % 16]]
  }

  function Pow16(n: nat): nat {
    if n == 0 then 1 else 16 * Pow16(n - 1)
  }

  lemma {:induction false} HexInjective(width: nat, m: nat, n: nat)
    requires m < Pow16(width) && n < Pow16(width)
    requires Hex(width, m) == Hex(width, n)
    ensures m == n
  {
    if width > 0 {
      var x, y := Hex(width, m), Hex(width, n);
      assert x[width - 1] == HEX_DIGITS[m % 16] && y[width - 1] == HEX_DIGITS[n % 16];
      assert x[..width - 1] == Hex(width - 1, m / 16) && y[..width - 1] == Hex(width - 1, n / 16);
      HexInjective(width - 1, m / 16, n / 16);
    }
  }

  /** An interface of a namespace network. */
  datatype IfName =
    | Loopback
    | Bridge(hash: nat)
    | VethHost(short: string)
    | VethContainer(short: string)
    | Vxlan(hash: nat)

  predicate Proper(n: IfName) {
    match n
    case Loopback => true
    case Bridge(h) => h < HASH_SIZE
    case Vxlan(h) => h < HASH_SIZE
    case VethHost(short) => |short| <= 8
    case VethContainer(short) => |short| <= 8
  }

  function Show(n: IfName): string {
    match n
    case Loopback => "lo"
    case Bridge(h) => "br-" + Hex(12, h)
    case Vxlan(h) => "vx-" + Hex(12, h)
    case VethHost(short) => "vh-" + short
    case VethContainer(short) => "vc-" + short
  }

  /** Structured names stand for the kernel's strings: distinct names render differently, and
      every rendering fits an interface name. */
  lemma ShowInjective(m: IfName, n: IfName)
    requires Proper(m) && Proper(n)
    ensures |Show(m)| <= IFNAMSIZ_CHARS
    ensures Show(m) == Show(n) <==> m == n
  {
    if Show(m) == Show(n) && m != n {
      assert m.Loopback? == n.Loopback? by {
        assert Show(m)[..2] == Show(n)[..2];
      }
      assert Show(m)[..3] == Show(n)[..3];
      assert Show(m)[3..] == Show(n)[3..];
      if m.Bridge? || m.Vxlan? {
        TwelveDigits();
        HexInjective(12, m.hash, n.hash);
      }
    }
  }

  function BridgeFor(namespace: string): (n: IfName)
    ensures Proper(n)
  {
    Bridge(Polynomial(namespace) % HASH_SIZE)
  }

  function VxlanFor(namespace: string): (n: IfName)
    ensures Proper(n)
  {
    Vxlan(Polynomial(namespace) % HASH_SIZE)
  }

  /** The part of a service's name that its veth names carry. */
  function Short(service: string): (r: string)
    ensures r <= service && |r| == if |service| >= 8 then 8 else |service|
  {
    if |service| > 8 then service[..8] else service
  }

  /** Two names are the same to the veth names: equal, or long and equal in their first eight bytes. */
  predicate SameToVeths(a: string, b: string) {
    a == b || (|a| >= 8 && |b| >= 8 && a[..8] == b[..8])
  }

  lemma ShortIff(a: string, b: string)
    ensures Short(a) == Short(b) <==> SameToVeths(a, b)
  {
    assert |a| >= 8 ==> Short(a) == a[..8];
    assert |b| >= 8 ==> Short(b) == b[..8];
  }

  /** The veth name builders: a two-letter tag and at most eight bytes of the name. */
  method VethNamesFor(service: string) returns (host: string, container: string)
    ensures |service| < 8 ==> host == "vh-" + service && container == "vc-" + service
    ensures |service| >= 8 ==> host == "vh-" + service[..8] && container == "vc-" + service[..8]
    ensures host == Show(VethHost(Short(service))) && container == Show(VethContainer(Short(service)))
    ensures |host| <= IFNAMSIZ_CHARS && |container| <= IFNAMSIZ_CHARS
  {
    var short := if |service| > 8 then service[..8] else service;
    host, container := "vh-" + short, "vc-" + short;
    assert |service| >= 8 ==> short == service[..8];
  }

  /** Reading hexadecimal digits back. */
  function DigitValue(c: char): nat {
    if '0' <= c <= '9' then c as int - '0' as int else if 'a' <= c <= 'f' then c as int - 'a' as int + 10 else 0
  }

  function HexValue(s: string): nat {
    if s == "" then 0 else 16 * HexValue(s[..|s| - 1]) + DigitValue(s[|s| - 1])
  }

  /** The digits of a number below 16^width read back as that number, and are lower-case. */
  lemma {:induction false} HexRoundTrip(width: nat, n: nat)
    requires n < Pow16(width)
    ensures HexValue(Hex(width, n)) == n
    ensures forall c :: c in Hex(width, n) ==> '0' <= c <= '9' || 'a' <= c <= 'f'
  {
    if width > 0 {
      HexRoundTrip(width - 1, n / 16);
      assert Hex(width, n)[..width - 1] == Hex(width - 1, n / 16);
      OneDigit(n % 16);
    }
  }

  lemma OneDigit(d: nat)
    requires d < 16
    ensures DigitValue(HEX_DIGITS[d]) == d && ('0' <= HEX_DIGITS[d] <= '9' || 'a' <= HEX_DIGITS[d] <= 'f')
  {
  }

  lemma TwelveDigits()
    ensures Pow16(12) == HASH_SIZE
  {
    assert Pow16(4) == 0x1_0000;
    assert Pow16(8) == 0x1_0000_0000;
  }

  /** The bridge and VXLAN name builders: a tag and twelve digits that read back as the polynomial of the
      name modulo 2^48; they are the rendering of the structured names. */
  method IfaceNamesFor(namespace: string) returns (bridge: string, vxlan: string)
    ensures bridge == Show(BridgeFor(namespace)) && vxlan == Show(VxlanFor(namespace))
    ensures |bridge| == IFNAMSIZ_CHARS == |vxlan|
    ensures bridge[..3] == "br-" && vxlan[..3] == "vx-" && bridge[3..] == vxlan[3..]
    ensures HexValue(bridge[3..]) == Polynomial(namespace) % HASH_SIZE
  {
    var truncated := TruncatedHash(namespace);
    TwelveDigits();
    HexRoundTrip(12, truncated);
    bridge := "br-" + Hex(12, truncated);
    vxlan := "vx-" + Hex(12, truncated);
  }

  /** Two equal-length names that differ in exactly one byte never share an interface name. */
  lemma OneByteApart(a: string, x: char, y: char, b: string)
    requires x != y
    ensures Show(BridgeFor(a + [x] + b)) != Show(BridgeFor(a + [y] + b))
    ensures Show(VxlanFor(a + [x] + b)) != Show(VxlanFor(a + [y] + b))
  {
    var s, t := a + [x] + b, a + [y] + b;
    if Polynomial(s) % HASH_SIZE == Polynomial(t) % HASH_SIZE {
      EqualRemainders(Polynomial(s), Polynomial(t));
      StayApart(a, x, y, b);
      assert false;
    }
    ShowInjective(BridgeFor(s), BridgeFor(t));
    ShowInjective(VxlanFor(s), VxlanFor(t));
  }

  /** In general the names collide exactly when the polynomials agree modulo 2^48 ... */
  lemma CollisionCondition(s: string, t: string)
    ensures Show(BridgeFor(s)) == Show(BridgeFor(t)) <==> Polynomial(s) % HASH_SIZE == Polynomial(t) % HASH_SIZE
    ensures Show(VxlanFor(s)) == Show(VxlanFor(t)) <==> Polynomial(s) % HASH_SIZE == Polynomial(t) % HASH_SIZE
  {
    ShowInjective(BridgeFor(s), BridgeFor(t));
    ShowInjective(VxlanFor(s), VxlanFor(t));
  }

  /** ... and different namespaces can collide. */
  lemma CollisionExists()
    ensures BridgeFor("Aa") == BridgeFor("BB")
  {
    Horner("A", 'a');
    Horner("B", 'B');
    Horner("", 'A');
    Horner("", 'B');
    assert "" + ['A'] == "A" && "" + ['B'] == "B" && "A" + ['a'] == "Aa" && "B" + ['B'] == "BB";
  }
}
