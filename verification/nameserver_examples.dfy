/** Start-up with concrete nameserver flags: the default, an IPv6
    nameserver and a host name. */
module NameserverExamples {
  import opened Wrappers
  import opened IPv4Pattern
  import opened Nameserver
  import IPv4Examples

  /** With no flags given the server dials `1.1.1.1:53` and synthesises
      under `64:ff9b::`, whatever the IPv6 pattern says */
  lemma DefaultConfiguration(isIPv6: string -> bool)
    ensures Startup(DefaultNameserver, DefaultNat64Prefix, isIPv6)
            == Some(Config(DefaultNameserver + ":53", DefaultNat64Prefix))
  {
    IPv4Examples.AcceptsDefaultNameserver();
    StartupWithIPv4Host(DefaultNameserver, DefaultNat64Prefix, isIPv6);
  }

  /** A public IPv6 resolver address */
  const ExampleIPv6Nameserver: string := "2606:4700:4700::1111"

  /** An IPv6 nameserver such as `2606:4700:4700::1111` is bracketed */
  lemma IPv6NameserverExample(isIPv6: string -> bool)
    requires isIPv6(ExampleIPv6Nameserver)
    ensures DialTarget(ExampleIPv6Nameserver, isIPv6) == Some("[" + ExampleIPv6Nameserver + "]:53")
  {
    IPv4Examples.RejectsIPv6Literal();
    IPv6IsBracketed(ExampleIPv6Nameserver, isIPv6);
  }

  /** A host name such as `not-an-ip` stops start-up */
  lemma HostNameIsFatal(isIPv6: string -> bool)
    requires !isIPv6("not-an-ip")
    ensures Startup("not-an-ip", DefaultNat64Prefix, isIPv6).None?
  {
    IPv4Examples.RejectsHostName();
  }
}
