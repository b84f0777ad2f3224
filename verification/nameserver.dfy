/** Start-up configuration: classifying the configured nameserver and
    turning it into the `host:port` string the resolver dials.

    The IPv6 pattern of main.go is a long alternation of address shapes; it
    is not modelled and is passed in as the predicate `isIPv6`. Only its
    place in the decision matters here: it is consulted after the IPv4
    pattern, and only when that one fails. */
module Nameserver {
  import opened Wrappers
  import opened IPv4Pattern

  /** Value of the `-nameserver` flag when none is given */
  const DefaultNameserver: string := "1.1.1.1"

  /** Value of the `-nat64` flag when none is given: the well-known prefix
      `64:ff9b::/96` of RFC 6052, section 2.1 */
  const DefaultNat64Prefix: string := "64:ff9b::"

  /** The settings fixed at start-up and read by every query afterwards */
  datatype Config = Config(nameserver: string, nat64: string)

  /** The dial target for the configured nameserver; `None` is the fatal
      "Nameserver parse error" exit. Every target names port 53, and the
      host can be read back out of it unchanged: an IPv4 host never starts
      with `[`, so the two formats cannot be confused. */
  function DialTarget(host: string, isIPv6: string -> bool): (t: Option<string>)
    ensures t.Some? ==>
              && |t.value| >= 3 && t.value[|t.value| - 3..] == ":53"
              && HostOfDialTarget(t.value) == Some(host)
  {
    if IsMayOnlyIPv4(host) then
      var t := host + ":53";
      AcceptedStartsWithDigit(host);
      assert t[|t| - 3..] == ":53";
      assert t[..|t| - 3] == host;
      assert t[0] == host[0];
      Some(t)
    else if isIPv6(host) then
      var t := "[" + host + "]:53";
      assert t[|t| - 4..] == "]:53";
      assert t[1..|t| - 4] == host;
      Some(t)
    else None
  }

  /** Start-up as a whole: the configuration the server runs with, or
      `None` when it exits before serving. A configuration always dials
      port 53 of exactly the host it was given. */
  function Startup(nameserver: string, nat64: string, isIPv6: string -> bool): (c: Option<Config>)
    ensures c.None? <==> !IsMayOnlyIPv4(nameserver) && !isIPv6(nameserver)
    ensures c.Some? ==>
              && c.value.nat64 == nat64
              && |c.value.nameserver| >= 3
              && c.value.nameserver[|c.value.nameserver| - 3..] == ":53"
              && HostOfDialTarget(c.value.nameserver) == Some(nameserver)
  {
    match DialTarget(nameserver, isIPv6)
    case None => None
    case Some(target) => Some(Config(target, nat64))
  }

  /** Reads the host back out of a dial target: the text before the port,
      without the brackets an IPv6 host is wrapped in */
  function HostOfDialTarget(t: string): Option<string> {
    if |t| >= 5 && t[0] == '[' && t[|t| - 4..] == "]:53" then Some(t[1..|t| - 4])
    else if |t| >= 3 && t[|t| - 3..] == ":53" then Some(t[..|t| - 3])
    else None
  }

  /** A host the IPv4 pattern accepts is dialled as `host:53`, whatever the
      IPv6 pattern would have said about it */
  lemma IPv4TakesPrecedence(host: string, isIPv6: string -> bool, other: string -> bool)
    requires IsMayOnlyIPv4(host)
    ensures DialTarget(host, isIPv6) == Some(host + ":53")
    ensures DialTarget(host, isIPv6) == DialTarget(host, other)
  {
  }

  /** Start-up with an IPv4 host keeps the prefix and dials `host:53` */
  lemma StartupWithIPv4Host(host: string, nat64: string, isIPv6: string -> bool)
    requires IsMayOnlyIPv4(host)
    ensures Startup(host, nat64, isIPv6) == Some(Config(host + ":53", nat64))
  {
  }

  /** A host that fails the IPv4 pattern but passes the IPv6 one is dialled
      as `[host]:53` */
  lemma IPv6IsBracketed(host: string, isIPv6: string -> bool)
    requires !IsMayOnlyIPv4(host) && isIPv6(host)
    ensures DialTarget(host, isIPv6) == Some("[" + host + "]:53")
  {
  }

  /** Start-up fails exactly when the host passes neither pattern */
  lemma FatalExactlyWhenUnclassified(host: string, isIPv6: string -> bool)
    ensures DialTarget(host, isIPv6).None? <==> !IsMayOnlyIPv4(host) && !isIPv6(host)
  {
  }

  /** Two hosts that start-up accepts never share a dial target */
  lemma DialTargetInjective(h1: string, h2: string, isIPv6: string -> bool)
    requires DialTarget(h1, isIPv6).Some? && DialTarget(h1, isIPv6) == DialTarget(h2, isIPv6)
    ensures h1 == h2
  {
  }
}
