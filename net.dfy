/**
 * Network addresses as the agent uses them: IPv4 text in the form `Ipv4Addr`'s parser accepts and
 * its `Display` prints, socket addresses, and the Modbus TCP port (src/cli/src/service/network.rs).
 */
module Net {
  import opened Bits
  import opened Utf8
  import opened Wrappers

  datatype Ipv4 = Ipv4(a: byte, b: byte, c: byte, d: byte)
  {
    /** The address as a 32-bit number, most significant octet first, for ordering. */
    function Value(): nat { ((a * 256 + b) * 256 + c) * 256 + d }
  }

  /** IPv6 addresses are carried but never parsed here. */
  datatype IpAddr = V4(v4: Ipv4) | V6(segments: seq<u16>)

  datatype SocketAddr = SocketAddr(ip: IpAddr, port: u16)

  /** An inclusive range of IPv4 addresses, `Ipv4AddrRange::new(start, end)`. */
  datatype Ipv4Range = Ipv4Range(start: Ipv4, end: Ipv4)
  {
    predicate Contains(ip: Ipv4) { start.Value() <= ip.Value() <= end.Value() }
  }

  const ModbusPort: u16 := 502
  const Dot: byte := '.' as int

  /** `network::to_socket`: the address at the Modbus TCP port. */
  function ToSocket(ip: IpAddr): (socket: SocketAddr)
    ensures socket.port == ModbusPort
  {
    SocketAddr(ip, ModbusPort)
  }

  /** `network::to_ip`. */
  function ToIp(socket: SocketAddr): IpAddr { socket.ip }

  lemma SocketRoundTrip(ip: IpAddr, socket: SocketAddr)
    ensures ToIp(ToSocket(ip)) == ip
    ensures socket.port == ModbusPort ==> ToSocket(ToIp(socket)) == socket
  {
  }

  /** The text split at every dot; a text without dots is one part. */
  function SplitDots(s: Text): (parts: seq<Text>)
    ensures |parts| >= 1
    decreases |s|
  {
    if Dot !in s then [s]
    else
      var i := FirstDot(s);
      [s[..i]] + SplitDots(s[i + 1..])
  }

  function FirstDot(s: Text): (i: nat)
    requires Dot in s
    ensures i < |s| && s[i] == Dot && Dot !in s[..i]
  {
    if s[0] == Dot then 0
    else
      var i := FirstDot(s[1..]);
      assert s[..i + 1] == [s[0]] + s[1..][..i];
      i + 1
  }

  predicate IsDigit(x: byte) { '0' as int <= x <= '9' as int }

  /** One octet as `read_number(10, Some(3), false)` accepts it: 1 to 3 digits, no leading zero, below 256. */
  predicate IsOctetText(t: Text)
  {
    1 <= |t| <= 3 && (forall i :: 0 <= i < |t| ==> IsDigit(t[i]))
    && (|t| > 1 ==> t[0] != '0' as int) && 0 <= DigitsValue(t) < 256
  }

  /** `Ipv4Addr::from_str`: exactly four dot-separated octets and nothing else. */
  function ParseIpv4(s: Text): Option<Ipv4>
  {
    var parts := SplitDots(s);
    if |parts| == 4 && IsOctetText(parts[0]) && IsOctetText(parts[1]) && IsOctetText(parts[2])
       && IsOctetText(parts[3]) then
      Some(Ipv4(DigitsValue(parts[0]), DigitsValue(parts[1]), DigitsValue(parts[2]), DigitsValue(parts[3])))
    else None
  }

  /** `Display` for `Ipv4Addr`: dotted decimal. */
  function FormatIpv4(ip: Ipv4): Text
  {
    Digits(ip.a) + [Dot] + (Digits(ip.b) + [Dot] + (Digits(ip.c) + [Dot] + Digits(ip.d)))
  }

  lemma DigitsHaveNoDot(n: nat)
    ensures Dot !in Digits(n)
  {
  }

  lemma {:induction false} FirstDotAfter(x: Text, rest: Text)
    requires Dot !in x
    ensures FirstDot(x + [Dot] + rest) == |x|
  {
    if |x| > 0 {
      assert (x + [Dot] + rest)[1..] == x[1..] + [Dot] + rest;
      assert x[0] in x;
      FirstDotAfter(x[1..], rest);
    }
  }

  lemma SplitDotsCons(x: Text, rest: Text)
    requires Dot !in x
    ensures SplitDots(x + [Dot] + rest) == [x] + SplitDots(rest)
  {
    var s := x + [Dot] + rest;
    assert s[|x|] == Dot;
    FirstDotAfter(x, rest);
    assert s[..|x|] == x;
    assert s[|x| + 1..] == rest;
  }

  lemma OctetTextOfDigits(n: nat)
    requires n < 256
    ensures IsOctetText(Digits(n)) && DigitsValue(Digits(n)) == n
  {
    DigitsLength(n);
    DigitsRoundTrip(n);
    DigitsNoLeadingZero(n);
  }

  lemma SplitFour(da: Text, db: Text, dc: Text, dd: Text)
    requires Dot !in da && Dot !in db && Dot !in dc && Dot !in dd
    ensures SplitDots(da + [Dot] + (db + [Dot] + (dc + [Dot] + dd))) == [da, db, dc, dd]
  {
    assert SplitDots(dd) == [dd];
    SplitDotsCons(dc, dd);
    SplitDotsCons(db, dc + [Dot] + dd);
    SplitDotsCons(da, db + [Dot] + (dc + [Dot] + dd));
  }

  /** Every address parses back from its dotted-decimal text. */
  lemma FormatThenParse(ip: Ipv4)
    ensures ParseIpv4(FormatIpv4(ip)) == Some(ip)
  {
    DigitsHaveNoDot(ip.a);
    DigitsHaveNoDot(ip.b);
    DigitsHaveNoDot(ip.c);
    DigitsHaveNoDot(ip.d);
    SplitFour(Digits(ip.a), Digits(ip.b), Digits(ip.c), Digits(ip.d));
    OctetTextOfDigits(ip.a);
    OctetTextOfDigits(ip.b);
    OctetTextOfDigits(ip.c);
    OctetTextOfDigits(ip.d);
  }

  /** The dotted parts put back together. */
  function JoinDots(parts: seq<Text>): Text
    requires |parts| >= 1
  {
    if |parts| == 1 then parts[0] else parts[0] + [Dot] + JoinDots(parts[1..])
  }

  lemma {:induction false} SplitThenJoin(s: Text)
    ensures JoinDots(SplitDots(s)) == s
    decreases |s|
  {
    if Dot in s {
      var i := FirstDot(s);
      SplitThenJoin(s[i + 1..]);
      assert s == s[..i] + [Dot] + s[i + 1..];
    }
  }

  /** Only the canonical dotted-decimal text of an address parses to it. */
  lemma ParseThenFormat(s: Text)
    requires ParseIpv4(s).Some?
    ensures s == FormatIpv4(ParseIpv4(s).value)
  {
    var parts := SplitDots(s);
    SplitThenJoin(s);
    forall k | 0 <= k < 4
      ensures Digits(DigitsValue(parts[k])) == parts[k]
    {
      assert IsOctetText(parts[k]);
      assert IsDecimal(parts[k]);
      DigitsOfValue(parts[k]);
    }
    assert parts[1..][1..][1..] == [parts[3]];
    assert JoinDots(parts[1..][1..]) == parts[2] + [Dot] + parts[3];
    assert JoinDots(parts[1..]) == parts[1] + [Dot] + (parts[2] + [Dot] + parts[3]);
  }
}
