/** Concrete hosts run through the IPv4 classifier: the default
    nameserver, the boundary cases of the octet alternatives, and the
    consequences of the missing end anchor. */
module IPv4Examples {
  import opened IPv4Pattern

  /** The octet texts the examples below are built from */
  lemma ExampleOctets()
    ensures OctetString("0") && OctetString("1") && OctetString("10") && OctetString("255")
  {
    assert DecimalValue("0", 0, 1) == 0;
    assert DecimalValue("1", 0, 1) == 1;
    assert DecimalValue("10", 0, 2) == 10;
    assert DecimalValue("255", 0, 3) == 255;
  }

  /** The default nameserver `1.1.1.1` is an IPv4 host */
  lemma AcceptsDefaultNameserver()
    ensures IsMayOnlyIPv4("1.1.1.1")
  {
    ExampleOctets();
    DottedQuadAccepted("1", "1", "1", "1", "");
    assert "1" + "." + "1" + "." + "1" + "." + "1" + "" == "1.1.1.1";
  }

  /** The limited broadcast address, every octet at its largest value */
  const BroadcastHost: string := "255.255.255.255"

  /** The largest octet value, 255, is accepted in every position */
  lemma AcceptsBroadcast()
    ensures IsMayOnlyIPv4(BroadcastHost)
  {
    ExampleOctets();
    DottedQuadAccepted("255", "255", "255", "255", "");
    BroadcastHostSpelling();
  }

  /** `BroadcastHost` spelled out as four octets */
  lemma BroadcastHostSpelling()
    ensures "255" + "." + "255" + "." + "255" + "." + "255" + "" == BroadcastHost
  {
  }

  /** A dotted quad followed by a dot and a domain suffix */
  const ExampleHostWithSuffix: string := "10.0.0.1.lan"

  /** With no `$` after the fourth group, text after a dot that follows the
      fourth octet is not looked at */
  lemma AcceptsTextAfterFourthDot()
    ensures IsMayOnlyIPv4(ExampleHostWithSuffix)
  {
    ExampleOctets();
    DottedQuadAccepted("10", "0", "0", "1", ".lan");
    SuffixHostSpelling();
  }

  /** `ExampleHostWithSuffix` spelled out as four octets and a tail */
  lemma SuffixHostSpelling()
    ensures "10" + "." + "0" + "." + "0" + "." + "1" + ".lan" == ExampleHostWithSuffix
  {
    var quad := "10" + "." + "0" + "." + "0" + "." + "1";
    assert quad == "10.0.0.1";
  }

  /** 256 is beyond every octet alternative */
  lemma RejectsOctetAbove255()
    ensures !IsMayOnlyIPv4("256.1.1.1")
  {
    var s := "256.1.1.1";
    assert DigitRunEnd(s, 0) == 3;
    assert DecimalValue(s, 0, 3) == 256;
  }

  /** Three groups are one too few */
  lemma RejectsThreeOctets()
    ensures !IsMayOnlyIPv4("1.2.3")
  {
    var s := "1.2.3";
    assert DigitRunEnd(s, 0) == 1;
    assert DigitRunEnd(s, 2) == 3;
    assert DigitRunEnd(s, 4) == 5;
    assert DigitRunEnd(s, 5) == 5;
    assert !ScanGroups(s, 5, 1);
  }

  /** A fourth octet must be followed by a dot or the end: a host that
      already carries a port is not an IPv4 host */
  lemma RejectsHostWithPort()
    ensures !IsMayOnlyIPv4("1.1.1.1:53")
  {
    var s := "1.1.1.1:53";
    assert DigitRunEnd(s, 0) == 1;
    assert DigitRunEnd(s, 2) == 3;
    assert DigitRunEnd(s, 4) == 5;
    assert DigitRunEnd(s, 6) == 7;
    assert !ScanGroups(s, 6, 1);
  }

  /** An IPv6 literal fails at its first group, four digits long */
  lemma RejectsIPv6Literal()
    ensures !IsMayOnlyIPv4("2606:4700:4700::1111")
  {
    var s := "2606:4700:4700::1111";
    assert DigitRunEnd(s, 0) == 4;
  }

  /** A host name fails at its first character */
  lemma RejectsHostName()
    ensures !IsMayOnlyIPv4("not-an-ip")
  {
    assert DigitRunEnd("not-an-ip", 0) == 0;
  }
}
