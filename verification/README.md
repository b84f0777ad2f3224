# dns64-only: a Dafny model of the NAT64-only DNS responder

The responder answers AAAA questions for IPv4-only names. For each AAAA
question it asks one configured upstream nameserver for the name's A
records. For every IPv4 address returned, it answers with the text
`<nat64 prefix><dotted quad>`, for example `64:ff9b::93.184.216.34`. This is
the mixed `x:x::d.d.d.d` notation of section 2.2 of RFC 4291, written under
a prefix such as the well-known prefix of section 2.1 of RFC 6052. Questions
of other types are never answered.

The model covers the three pieces of logic in `main.go`:

- **Nameserver classification and start-up** (`ipv4_pattern.dfy`,
  `nameserver.dfy`). The IPv4 pattern is given a reference meaning. Each
  piece of the pattern is a relation on positions of the host, and every
  choice the pattern leaves open is an existential. A deterministic scanner,
  `IsMayOnlyIPv4`, is proved to agree with that meaning on every string.
  `DialTarget` then formats the host as `host:53` or `[host]:53`, or gives
  `None` for the fatal start-up error.
- **Query dispatch** (`dispatch.dfy`). `Contributions` is the reference
  meaning: what each question adds, address by address. `ParseQuery` is the
  source's pair of nested loops that append to the answer section. Its
  contract says it appends exactly the reference answers after the ones
  already present. Lemmas then say which records those are and in what order.
- **Request handling** (`handler.dfy`, `dns_msg.dfy`). The reply is built
  from the request with compression off. Dispatch runs only for OPCODE 0
  (QUERY, section 4.1.1 of RFC 1035).

Two calls leave the program and are passed in as functions:

- `lookup: string -> Result<seq<string>>` is the A lookup against the
  configured nameserver. It returns the textual forms of the addresses found,
  or an error.
- `parses: string -> bool` says whether the DNS library turns the text
  `<name> AAAA <address>` into a record.

The IPv6 pattern is also passed in, as `isIPv6: string -> bool`.

`synthesis.dfy` states when synthesis keeps every returned address.
`ipv4_examples.dfy`, `nameserver_examples.dfy` and `dispatch_examples.dfy`
hold concrete cases. These
include the default nameserver, the octet boundaries, the missing end
anchor, and the synthesis of `64:ff9b::93.184.216.34`.

Points of the code's behaviour worth stating plainly:

- The IPv4 pattern is tried first and wins whenever it matches, whatever
  the IPv6 pattern would say (`IPv4TakesPrecedence`).
- Only the request's first question is answered. `parseQuery` walks the
  questions of the reply, and the DNS library's `SetReply` copies only the
  request's first question there. The model writes that library behaviour
  out in `DnsMsg.SetReply`. The library itself is not part of this model.
- An address text is dropped when it has no dot or when its record text
  does not parse (`ContributionEmpty`). `OneRecordPerIPv4Address` gives the
  conditions under which nothing is dropped.
- The IPv4 pattern has no `$` after its four groups. So `10.0.0.1.lan` is
  accepted and dialled as `10.0.0.1.lan:53` (`AcceptsTextAfterFourthDot`).
  The model keeps this behaviour as written.

## Model

| member | source | states |
|---|---|---|
| IPv4Pattern.IsMayOnlyIPv4 | main.go:38-45 | The host is classified as IPv4 exactly when Go's `MatchString` finds a match of the IPv4 pattern at its start. The match takes four groups, each an octet alternative followed by a dot or the end of text, and may stop anywhere. |
| IPv4Pattern.ScanGroupsMatchesPattern | main.go:26 | For every start position and count, reading groups deterministically succeeds exactly when that many repetitions of the group (an octet, then a dot or the end of text) can match from there. |
| IPv4Pattern.ScannerAgreesWithRegex | main.go:26 | The four-group scan from position 0 succeeds exactly when the anchored pattern has a match. |
| IPv4Pattern.OctetAlternatives | main.go:26 | `25[0-5]`, `2[0-4][0-9]` and `[01]?[0-9][0-9]?` together accept exactly one to three digits whose value is at most 255, leading zeros allowed. |
| IPv4Pattern.GroupAtDigitRunEnd | main.go:26 | A group can only end at the end of the digit run it starts on. It matches exactly when that run is an octet followed by a dot or by the end of text. |
| IPv4Pattern.AcceptedStartsWithDigit | main.go:26 | Every accepted host starts with a digit, so never with `[`. |
| IPv4Pattern.AcceptedContainsDot | main.go:26 | Every accepted host contains a dot. |
| IPv4Pattern.DottedQuadAccepted | main.go:26 | Four octets joined by dots are accepted, with or without any text that starts with a dot after the fourth. |
| IPv4Examples.AcceptsDefaultNameserver | main.go:26 | `1.1.1.1` is accepted. |
| IPv4Examples.AcceptsBroadcast | main.go:26 | `255.255.255.255` is accepted: 255 is the largest octet. |
| IPv4Examples.AcceptsTextAfterFourthDot | main.go:26 | `10.0.0.1.lan` is accepted, because the pattern has no end anchor. |
| IPv4Examples.RejectsOctetAbove255 | main.go:26 | `256.1.1.1` is rejected. |
| IPv4Examples.RejectsThreeOctets | main.go:26 | `1.2.3` is rejected. |
| IPv4Examples.RejectsHostWithPort | main.go:26 | `1.1.1.1:53` is rejected: a fourth octet needs a dot or the end after it. |
| IPv4Examples.RejectsIPv6Literal | main.go:26 | `2606:4700:4700::1111` is rejected. |
| IPv4Examples.RejectsHostName | main.go:26 | `not-an-ip` is rejected. |
| Nameserver.Startup | main.go:98-105 | Start-up fails exactly when the host passes neither pattern. Otherwise the configuration keeps the NAT64 prefix and dials a target that ends in `:53` and from which the host reads back unchanged. |
| Nameserver.IPv4TakesPrecedence | main.go:99-100 | A host the IPv4 pattern accepts is dialled as `host:53`, and the IPv6 pattern has no effect on it. |
| Nameserver.IPv6IsBracketed | main.go:101-102 | A host that fails the IPv4 pattern and passes the IPv6 one is dialled as `[host]:53`. |
| Nameserver.FatalExactlyWhenUnclassified | main.go:103-104 | There is no dial target exactly when the host passes neither pattern. |
| Nameserver.DialTarget | main.go:99-105 | Every dial target ends in `:53`, and stripping the port and any brackets gives back the configured host. |
| Nameserver.DialTargetInjective | main.go:99-102 | Two accepted hosts never get the same dial target. |
| Nameserver.StartupWithIPv4Host | main.go:98-100 | Start-up with a host the IPv4 pattern accepts keeps the NAT64 prefix and dials `host:53`. |
| NameserverExamples.DefaultConfiguration | main.go:92-93 | With the default flags, start-up dials the default host `1.1.1.1` on port 53 and synthesises under `64:ff9b::`, whatever the IPv6 pattern says. |
| NameserverExamples.IPv6NameserverExample | main.go:101-102 | `2606:4700:4700::1111`, when the IPv6 pattern accepts it, is dialled as `[2606:4700:4700::1111]:53`. |
| NameserverExamples.HostNameIsFatal | main.go:103-104 | `not-an-ip`, when the IPv6 pattern rejects it, stops start-up. |
| Dispatch.Synthesized | main.go:57-67 | One lookup yields at most as many records as it returned addresses, and every record carries the question's name. |
| Dispatch.SynthesizedAppend | main.go:57-67 | Records for a split address list are the records for each part, in order, so records keep lookup order. |
| Dispatch.SynthesizedMembership | main.go:57-66 | A record is synthesised exactly when it has the question's name and its address is the prefix followed by a returned address text that contains a dot and whose record text parses. |
| Dispatch.AppendSynthesized | main.go:57-67 | The inner loop leaves the answers already present in place and appends exactly the synthesised records after them. |
| Dispatch.AnswerQuestion | main.go:49-73 | Handling one question leaves the answers already present in place and appends exactly that question's contribution. |
| Dispatch.ContributionsAppend | main.go:48-75 | Answers for a split question list are the answers for each part, in question order. |
| Dispatch.AppendAnswers | main.go:48-75 | The outer loop over the questions leaves the answers already present in place and appends exactly the contributions of the questions, in question order. |
| Dispatch.ParseQuery | main.go:47-76 | The walk changes only the answer section. The answers present on entry stay a prefix, and after them come exactly the per-question contributions, in question order. |
| Dispatch.ContributionMembership | main.go:49-73 | A question's answers are exactly the records that answer it: it asks for AAAA, its lookup succeeded, and the record comes from a kept address text. |
| Dispatch.AnswerProvenance | main.go:47-76 | A record is added exactly when it answers one of the questions walked. |
| Dispatch.ContributionEmpty | main.go:49-73 | A question adds nothing exactly when it is not AAAA, its lookup failed, or no returned address text is kept. |
| Dispatch.LookupOnlyForAAAA | main.go:49-51 | The lookup is consulted only for names of AAAA questions: two lookups that agree there give the same answers. |
| Dispatch.NoAAAAQuestionNoAnswers | main.go:48-50 | Questions none of which is AAAA get no answers, whatever the upstream holds. |
| Synthesis.OneRecordPerIPv4Address | main.go:57-66 | When every returned text passes the IPv4 pattern and every record text parses, there is exactly one record per address, in lookup order. |
| DispatchExamples.SynthesisExample | main.go:58-65 | The address `93.184.216.34` under `64:ff9b::` gives the one record `64:ff9b::93.184.216.34`. |
| DispatchExamples.NoAddressesNoAnswers | main.go:56-57 | A lookup that returns no addresses gives no records. |
| DispatchExamples.FailedLookupNoAnswers | main.go:70-72 | A failed lookup gives no records. |
| DispatchExamples.OtherTypesNoAnswers | main.go:49-50 | A or MX questions get no records. |
| DispatchExamples.DotlessAddressDropped | main.go:59 | An address text without a dot gives no record, even when its record text would parse. |
| Handler.HandleDnsRequest | main.go:78-89 | The reply has compression off, a success rcode, and mirrors the request's id and opcode. For any opcode other than QUERY it has no answers. For QUERY its answers are exactly the records that answer the request's first question. |

## Left out

- The UDP server, `ListenAndServe`, `Shutdown` and `WriteMsg` are left out. They are socket I/O.
- Flag parsing in `init` is left out. Only the two default values are kept, as `DefaultNameserver` and `DefaultNat64Prefix`.
- The resolver's dial override and its 10-second timeout are left out. They are network I/O. The upstream lookup is the `lookup` parameter. Within one request it is assumed to answer the same way for the same name.
- The IPv6 pattern is not encoded. It is the `isIPv6` parameter. Only its place after the IPv4 test matters to the dial-target properties.
- The error branches of `isMayOnlyIPv4` and `isMayOnlyIPv6` are left out. They fire only when a pattern fails to compile, and both patterns are constants that compile.
- `dns.NewRR`, DNS wire parsing and serialisation are left out. They are library code. The record parser is the `parses` parameter, and a record is modelled as its name and address text. Name canonicalisation by the library is not modelled.
- The DNS library's `SetReply` is modelled only in the effect it has on the fields used here. These are the id, response flag, opcode, rcode and question section. The recursion-desired and checking-disabled bits are not modelled.
- Logging and debug output are left out.
- Concurrent handling of requests is left out. Each request is handled on its own, and the model describes one handling.
- Bit-level RFC 6052 embedding is not modelled. The source joins the prefix and the dotted quad as text, and the model keeps that textual form.
- Repeating a query against an unchanged upstream gives the same answers. This holds because every function in the model is deterministic, so no separate lemma states it.
