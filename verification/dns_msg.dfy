/** The parts of a DNS message (section 4.1 of RFC 1035) that the responder
    reads or writes. Parsing and serialising the wire format belong to the
    DNS library and are outside the model; so does its `SetReply`, whose
    effect is written out below as `SetReply`. */
module DnsMsg {

  /** Header and question fields are 16 bits wide on the wire */
  type uint16 = x: int | 0 <= x < 0x1_0000

  /** The OPCODE header field is 4 bits wide (RFC 1035, section 4.1.1) */
  type Opcode = x: int | 0 <= x < 16

  /** OPCODE 0, a standard query (RFC 1035, section 4.1.1) */
  const OpcodeQuery: Opcode := 0

  /** RCODE 0, no error */
  const RcodeSuccess: nat := 0

  /** TYPE value of an A record (RFC 1035, section 3.2.2) */
  const TypeA: uint16 := 1

  /** TYPE value of an AAAA record (RFC 3596, section 2.1) */
  const TypeAAAA: uint16 := 28

  /** A question: the name as it arrived, its type and its class */
  datatype Question = Question(name: string, qtype: uint16, qclass: uint16)

  /** An answer record. The responder only ever builds AAAA records, from
      the text `<name> AAAA <address>`, so a record is that name and that
      address text. */
  datatype Record = AAAA(name: string, address: string)

  datatype Msg = Msg(
    id: uint16,
    response: bool,
    opcode: Opcode,
    rcode: nat,
    compress: bool,
    question: seq<Question>,
    answer: seq<Record>)

  /** `new(dns.Msg)`: every field at its zero value */
  function NewMsg(): (m: Msg)
    ensures !m.response && !m.compress && m.question == [] && m.answer == []
  {
    Msg(0, false, 0, RcodeSuccess, false, [], [])
  }

  /** The library's `SetReply`: `m` becomes a response to `request` with the
      same id and opcode, a success rcode and the request's first question;
      the answer section of `m` is not touched */
  function SetReply(m: Msg, request: Msg): (r: Msg)
    ensures r.id == request.id && r.response && r.opcode == request.opcode
    ensures |request.question| > 0 ==> r.question == [request.question[0]]
    ensures r.rcode == RcodeSuccess
    ensures r.answer == m.answer && r.compress == m.compress
  {
    m.(id := request.id,
       response := true,
       opcode := request.opcode,
       rcode := RcodeSuccess,
       question := if |request.question| > 0 then [request.question[0]] else m.question)
  }
}
