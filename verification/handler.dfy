/** The request handler: builds the reply to one request and, for a
    standard query, lets dispatch fill its answer section. Writing the
    reply to the client is outside the model. */
module Handler {
  import opened DnsMsg
  import opened Dispatch
  import Nameserver

  /** `handleDnsRequest`: a fresh message is made a reply to the request,
      compression is switched off, and dispatch runs only when the request
      is a standard query */
  method HandleDnsRequest(req: Msg, cfg: Nameserver.Config, lookup: Lookup, parses: RecordParser)
    returns (reply: Msg)
    ensures !reply.compress
    ensures reply.id == req.id && reply.response && reply.opcode == req.opcode
    ensures reply.rcode == RcodeSuccess
    ensures reply.question == if |req.question| > 0 then [req.question[0]] else []
    ensures req.opcode != OpcodeQuery ==> reply.answer == []
    ensures req.opcode == OpcodeQuery ==>
              reply.answer == Contributions(reply.question, cfg.nat64, lookup, parses)
    ensures forall rec :: rec in reply.answer <==>
              && req.opcode == OpcodeQuery
              && |req.question| > 0
              && AnswersQuestion(rec, req.question[0], cfg.nat64, lookup, parses)
  {
    var m := SetReply(NewMsg(), req);
    m := m.(compress := false);
    if req.opcode == OpcodeQuery {
      m := ParseQuery(m, cfg.nat64, lookup, parses);
    }
    reply := m;
    forall rec
      ensures rec in reply.answer <==>
                && req.opcode == OpcodeQuery
                && |req.question| > 0
                && AnswersQuestion(rec, req.question[0], cfg.nat64, lookup, parses)
    {
      if req.opcode == OpcodeQuery {
        AnswerProvenance(rec, reply.question, cfg.nat64, lookup, parses);
      }
    }
  }
}
