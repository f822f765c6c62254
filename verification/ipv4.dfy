/** IPv4 addresses and /24 networks, as `get_subnet` and the gateway
    arithmetic of kubespray/generate_inventory.py use them through Python's
    `ipaddress` module. */
module IPv4 {
  import opened Wrappers
  import opened Numerals
  import opened Text

  type Octet = n: nat | n < 256

  /** A dotted-quad address, most significant octet first. */
  datatype Address = Address(o1: Octet, o2: Octet, o3: Octet, o4: Octet)

  /** The 32-bit integer the address stands for (`int(IPv4Address(...))`). */
  function Value(a: Address): (v: nat)
    ensures v < 0x1_0000_0000
    ensures v % 256 == a.o4
  {
    ((a.o1 * 256 + a.o2) * 256 + a.o3) * 256 + a.o4
  }

  /** Dotted-quad text, as `str(IPv4Address(...))` writes it. */
  function Format(a: Address): string {
    Decimal(a.o1) + "." + Decimal(a.o2) + "." + Decimal(a.o3) + "." + Decimal(a.o4)
  }

  /** One octet of a dotted quad: one to three ASCII digits, no leading zero,
      at most 255; anything else is refused (a `ValueError` in Python). */
  function ParseOctet(s: string): Option<Octet> {
    if Canonical(s) && |s| <= 3 && DecValue(s) <= 255 then Some(DecValue(s)) else None
  }

  /** An accepted octet is written exactly as `Decimal` writes its value. */
  lemma ParseOctetCanonical(s: string)
    ensures ParseOctet(s).Some? ==> Decimal(ParseOctet(s).value) == s
  {
    if ParseOctet(s).Some? {
      DecimalOfDecValue(s);
    }
  }

  /** Every octet is accepted in the form `Decimal` writes it. */
  lemma ParseOctetDecimal(n: Octet)
    ensures ParseOctet(Decimal(n)) == Some(n)
  {
    DecValueOfDecimal(n);
    DecimalLength(n);
  }

  /** Reads an address written as four dot-separated octets. */
  function Parse(s: string): Option<Address> {
    var parts := Split(s, '.');
    if |parts| != 4 then None
    else
      match (ParseOctet(parts[0]), ParseOctet(parts[1]), ParseOctet(parts[2]), ParseOctet(parts[3]))
      case (Some(a), Some(b), Some(c), Some(d)) => Some(Address(a, b, c, d))
      case _ => None
  }

  lemma JoinFour(parts: seq<string>)
    requires |parts| == 4
    ensures Join(parts, '.') == parts[0] + "." + parts[1] + "." + parts[2] + "." + parts[3]
  {
    assert parts[1..][1..] == parts[2..] && parts[2..][1..] == parts[3..];
    assert Join(parts[3..], '.') == parts[3];
    assert Join(parts[2..], '.') == parts[2] + "." + parts[3];
    assert Join(parts[1..], '.') == parts[1] + "." + parts[2] + "." + parts[3];
  }

  /** Only the canonical text of an address is accepted: whatever `Parse`
      accepts is exactly what `Format` writes for the result. */
  lemma ParseCanonical(s: string)
    ensures Parse(s).Some? ==> Format(Parse(s).value) == s
  {
    var parts := Split(s, '.');
    if Parse(s).Some? {
      assert |parts| == 4;
      ParseOctetCanonical(parts[0]);
      ParseOctetCanonical(parts[1]);
      ParseOctetCanonical(parts[2]);
      ParseOctetCanonical(parts[3]);
      JoinFour(parts);
    }
  }

  /** The text of an address splits into the four octet numerals. */
  lemma SplitFormat(a: Address)
    ensures Split(Format(a), '.') == [Decimal(a.o1), Decimal(a.o2), Decimal(a.o3), Decimal(a.o4)]
  {
    var d1, d2, d3, d4 := Decimal(a.o1), Decimal(a.o2), Decimal(a.o3), Decimal(a.o4);
    assert '.' !in d1 && '.' !in d2 && '.' !in d3 && '.' !in d4 by {
      assert !IsDigit('.');
    }
    var t3 := d3 + ['.'] + d4;
    var t2 := d2 + ['.'] + t3;
    assert Format(a) == d1 + ['.'] + t2;
    SplitNone(d4, '.');
    SplitCons(d3, '.', d4);
    SplitCons(d2, '.', t3);
    SplitCons(d1, '.', t2);
  }

  /** Parsing the text of an address gives the address back. */
  lemma ParseFormat(a: Address)
    ensures Parse(Format(a)) == Some(a)
  {
    SplitFormat(a);
    ParseOctetDecimal(a.o1);
    ParseOctetDecimal(a.o2);
    ParseOctetDecimal(a.o3);
    ParseOctetDecimal(a.o4);
  }

  lemma FormatInjective(a: Address, b: Address)
    ensures Format(a) == Format(b) ==> a == b
  {
    ParseFormat(a);
    ParseFormat(b);
  }

  /** The prefix length `get_subnet` uses (its `cidr="24"` default). */
  const PrefixLength: nat := 24

  /** A /24 network, named by its network address: the last octet is zero. */
  type Network = a: Address | a.o4 == 0 witness Address(0, 0, 0, 0)

  /** `a` lies in the 256 addresses of network `n`. */
  predicate Contains(n: Network, a: Address) {
    Value(n) <= Value(a) < Value(n) + 256
  }

  /** The /24 network around `a` (`IPv4Network(a + "/24", strict=False)`):
      the address with its host bits cleared. */
  function NetworkOf(a: Address): (n: Network)
    ensures Value(n) == Value(a) - Value(a) % 256
    ensures Contains(n, a)
  {
    Address(a.o1, a.o2, a.o3, 0)
  }

  /** A network holds exactly the addresses whose own network it is. */
  lemma ContainsIsNetworkOf(n: Network, a: Address)
    ensures Contains(n, a) <==> NetworkOf(a) == n
  {
    var v, w := Value(a), Value(n);
    var hi := (a.o1 * 256 + a.o2) * 256 + a.o3;
    var nhi := (n.o1 * 256 + n.o2) * 256 + n.o3;
    assert v == hi * 256 + a.o4 && w == nhi * 256;
    if Contains(n, a) {
      assert hi == nhi;
      assert a.o3 == n.o3 && (a.o1 * 256 + a.o2) == (n.o1 * 256 + n.o2);
      assert a.o2 == n.o2 && a.o1 == n.o1;
    }
  }

  /** CIDR text of a network, as `str(IPv4Network(...))` writes it: "a.b.c.0/24". */
  function SubnetText(n: Network): string {
    Format(n) + "/" + Decimal(PrefixLength)
  }

  lemma SubnetTextInjective(m: Network, n: Network)
    ensures SubnetText(m) == SubnetText(n) ==> m == n
  {
    if SubnetText(m) == SubnetText(n) {
      var suffix := "/" + Decimal(PrefixLength);
      assert Format(m) == SubnetText(m)[..|SubnetText(m)| - |suffix|];
      assert Format(n) == SubnetText(n)[..|SubnetText(n)| - |suffix|];
      FormatInjective(m, n);
    }
  }

  /** `get_subnet(ip)`: the /24 network around the address `ip` reads as,
      or nothing when `ip` is not an address (Python raises `ValueError`). */
  function SubnetOf(ip: string): Option<Network> {
    match Parse(ip)
    case None => None
    case Some(a) => Some(NetworkOf(a))
  }

  /** `get_subnet` fails exactly on text that is not an address; otherwise
      its network holds the address, and any network that holds the address
      is the one it returns. */
  lemma SubnetOfContains(ip: string, n: Network)
    ensures SubnetOf(ip).Some? <==> Parse(ip).Some?
    ensures SubnetOf(ip).Some? ==> Contains(SubnetOf(ip).value, Parse(ip).value)
    ensures Parse(ip).Some? ==> (Contains(n, Parse(ip).value) <==> SubnetOf(ip) == Some(n))
  {
    if Parse(ip).Some? {
      ContainsIsNetworkOf(n, Parse(ip).value);
    }
  }

  /** The network of an address's own text is its `NetworkOf`. */
  lemma SubnetOfFormat(a: Address)
    ensures SubnetOf(Format(a)) == Some(NetworkOf(a))
  {
    ParseFormat(a);
  }

  /** `IPv4Address + 1`: the next address, carrying into higher octets; past
      255.255.255.255 there is none (Python raises `AddressValueError`). */
  function Succ(a: Address): (r: Option<Address>)
    ensures r.Some? <==> Value(a) < 0xFFFF_FFFF
    ensures r.Some? ==> Value(r.value) == Value(a) + 1
  {
    if a.o4 < 255 then Some(a.(o4 := a.o4 + 1))
    else if a.o3 < 255 then Some(Address(a.o1, a.o2, a.o3 + 1, 0))
    else if a.o2 < 255 then Some(Address(a.o1, a.o2 + 1, 0, 0))
    else if a.o1 < 255 then Some(Address(a.o1 + 1, 0, 0, 0))
    else None
  }

  /** The route gateway for a subnet: `ip_network(subnet)[0] + 1`, the first
      address after the network address. It never leaves the network. */
  function Gateway(n: Network): (g: Address)
    ensures Succ(n) == Some(g)
    ensures Contains(n, g)
  {
    Address(n.o1, n.o2, n.o3, 1)
  }
}
