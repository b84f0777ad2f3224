/** How the dispatch filters meet the addresses an A lookup produces.
    Formatted IPv4 addresses are dotted quads, which the IPv4 pattern
    describes, so the dot filter keeps every one of them. */
module Synthesis {
  import opened DnsMsg
  import opened Dispatch
  import IPv4Pattern

  /** The record each address text would give if nothing were dropped */
  function AllCandidates(name: string, nat64: string, ips: seq<string>): (rs: seq<Record>)
    ensures |rs| == |ips|
    ensures forall k :: 0 <= k < |ips| ==> rs[k] == AAAA(name, nat64 + ips[k])
  {
    seq(|ips|, k requires 0 <= k < |ips| => AAAA(name, nat64 + ips[k]))
  }

  /** When the lookup hands back dotted-quad texts and every record text
      parses, the dot filter drops nothing: one record per address, in
      lookup order */
  lemma {:induction false} OneRecordPerIPv4Address(name: string, nat64: string, ips: seq<string>, parses: RecordParser)
    requires forall k :: 0 <= k < |ips| ==> IPv4Pattern.IsMayOnlyIPv4(ips[k])
    requires forall k :: 0 <= k < |ips| ==> parses(RecordText(name, nat64 + ips[k]))
    ensures Synthesized(name, nat64, ips, parses) == AllCandidates(name, nat64, ips)
    decreases |ips|
  {
    if ips != [] {
      IPv4Pattern.AcceptedContainsDot(ips[0]);
      assert Kept(name, nat64, ips[0], parses);
      OneRecordPerIPv4Address(name, nat64, ips[1..], parses);
      var all := AllCandidates(name, nat64, ips);
      assert all == [all[0]] + AllCandidates(name, nat64, ips[1..]);
    }
  }
}
