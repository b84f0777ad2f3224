/** Query dispatch: the walk over the questions of a reply that fills its
    answer section with NAT64-synthesised AAAA records.

    The two calls the walk makes into code outside the model are passed in:
    `lookup`, the A lookup against the configured nameserver, which gives
    the textual forms of the IPv4 addresses it found or an error; and
    `parses`, which says whether the DNS library accepts a record text.

    `Contributions` is the reference meaning of the walk, question by
    question and address by address; `ParseQuery` is the walk itself, two
    nested loops that append to the answer section, and its contract is
    that it produces exactly the reference answers after the ones already
    there. */
module Dispatch {
  import opened Wrappers
  import opened DnsMsg

  /** The upstream A lookup, as a function of the question name */
  type Lookup = string -> Result<seq<string>>

  /** Whether the DNS library parses a record text into a record */
  type RecordParser = string -> bool

  /** The text handed to the record parser: owner name, type, address */
  function RecordText(name: string, address: string): string {
    name + " AAAA " + address
  }

  /** An address text yields a record when it contains a dot and the record
      text built from `nat64 + ip` parses */
  predicate Kept(name: string, nat64: string, ip: string, parses: RecordParser) {
    '.' in ip && parses(RecordText(name, nat64 + ip))
  }

  /** The records synthesised from the addresses one lookup returned: one
      per kept address, named after the question, in lookup order */
  function Synthesized(name: string, nat64: string, ips: seq<string>, parses: RecordParser): (rs: seq<Record>)
    ensures |rs| <= |ips|
    ensures forall k :: 0 <= k < |rs| ==> rs[k].name == name
  {
    if ips == [] then []
    else
      (if Kept(name, nat64, ips[0], parses) then [AAAA(name, nat64 + ips[0])] else [])
      + Synthesized(name, nat64, ips[1..], parses)
  }

  /** What one question adds to the answer section: nothing unless it asks
      for AAAA and the lookup of its name succeeds */
  function Contribution(q: Question, nat64: string, lookup: Lookup, parses: RecordParser): seq<Record> {
    if q.qtype != TypeAAAA then []
    else
      match lookup(q.name)
      case Err(_) => []
      case Ok(ips) => Synthesized(q.name, nat64, ips, parses)
  }

  /** What a list of questions adds, question after question */
  function Contributions(qs: seq<Question>, nat64: string, lookup: Lookup, parses: RecordParser): seq<Record> {
    if qs == [] then []
    else Contribution(qs[0], nat64, lookup, parses) + Contributions(qs[1..], nat64, lookup, parses)
  }

  /** Synthesis over a split address list is synthesis over each part, in order */
  lemma {:induction false} SynthesizedAppend(name: string, nat64: string, a: seq<string>, b: seq<string>, parses: RecordParser)
    ensures Synthesized(name, nat64, a + b, parses)
            == Synthesized(name, nat64, a, parses) + Synthesized(name, nat64, b, parses)
    decreases |a|
  {
    if a != [] {
      assert (a + b)[1..] == a[1..] + b;
      SynthesizedAppend(name, nat64, a[1..], b, parses);
    } else {
      assert a + b == b;
    }
  }

  /** The answers for a split question list are the answers for each part, in order */
  lemma {:induction false} ContributionsAppend(a: seq<Question>, b: seq<Question>, nat64: string, lookup: Lookup, parses: RecordParser)
    ensures Contributions(a + b, nat64, lookup, parses)
            == Contributions(a, nat64, lookup, parses) + Contributions(b, nat64, lookup, parses)
    decreases |a|
  {
    if a != [] {
      assert (a + b)[0] == a[0];
      assert (a + b)[1..] == a[1..] + b;
      ContributionsAppend(a[1..], b, nat64, lookup, parses);
      ConcatAssoc(Contribution(a[0], nat64, lookup, parses),
                  Contributions(a[1..], nat64, lookup, parses),
                  Contributions(b, nat64, lookup, parses));
    } else {
      assert a + b == b;
    }
  }

  lemma ContributionsOfOne(q: Question, nat64: string, lookup: Lookup, parses: RecordParser)
    ensures Contributions([q], nat64, lookup, parses) == Contribution(q, nat64, lookup, parses)
  {
    assert [q][1..] == [];
  }

  /** One more step of the outer loop adds the contribution of one more question */
  lemma AnswersAfterOneMore(qs: seq<Question>, i: nat, nat64: string, lookup: Lookup, parses: RecordParser)
    requires i < |qs|
    ensures Contributions(qs[..i + 1], nat64, lookup, parses)
            == Contributions(qs[..i], nat64, lookup, parses) + Contribution(qs[i], nat64, lookup, parses)
  {
    ContributionsOfOne(qs[i], nat64, lookup, parses);
    ContributionsAppend(qs[..i], [qs[i]], nat64, lookup, parses);
    assert qs[..i + 1] == qs[..i] + [qs[i]];
  }

  /** Sequence concatenation is associative */
  lemma ConcatAssoc<T>(a: seq<T>, b: seq<T>, c: seq<T>)
    ensures (a + b) + c == a + (b + c)
  {
  }

  /** One more step of the inner loop adds the record of one more address,
      if it is kept */
  lemma SynthesizedAfterOneMore(name: string, nat64: string, ips: seq<string>, j: nat, parses: RecordParser)
    requires j < |ips|
    ensures Synthesized(name, nat64, ips[..j + 1], parses)
            == Synthesized(name, nat64, ips[..j], parses)
               + (if Kept(name, nat64, ips[j], parses) then [AAAA(name, nat64 + ips[j])] else [])
  {
    SynthesizedAppend(name, nat64, ips[..j], [ips[j]], parses);
    assert ips[..j + 1] == ips[..j] + [ips[j]];
    assert [ips[j]][1..] == [];
  }

  /** The inner loop of `parseQuery`: walks the addresses of one successful
      lookup and appends a record for each address text that contains a dot
      and whose record text parses */
  method AppendSynthesized(answer: seq<Record>, name: string, nat64: string, ips: seq<string>, parses: RecordParser)
    returns (out: seq<Record>)
    ensures out == answer + Synthesized(name, nat64, ips, parses)
  {
    out := answer;
    ghost var added: seq<Record> := [];
    for j := 0 to |ips|
      invariant added == Synthesized(name, nat64, ips[..j], parses)
      invariant out == answer + added
    {
      var ip := ips[j];
      ghost var c := if Kept(name, nat64, ip, parses) then [AAAA(name, nat64 + ip)] else [];
      ghost var before := out;
      if '.' in ip {
        if parses(RecordText(name, nat64 + ip)) {
          out := out + [AAAA(name, nat64 + ip)];
        }
      }
      assert out == before + c;
      SynthesizedAfterOneMore(name, nat64, ips, j, parses);
      ConcatAssoc(answer, added, c);
      added := added + c;
    }
    assert ips[..|ips|] == ips;
  }

  /** The body of the outer loop of `parseQuery`: an AAAA question is
      looked up; a successful lookup has its records appended, a failed one
      adds nothing, and any other question type is passed over */
  method AnswerQuestion(answer: seq<Record>, q: Question, nat64: string, lookup: Lookup, parses: RecordParser)
    returns (out: seq<Record>)
    ensures out == answer + Contribution(q, nat64, lookup, parses)
  {
    out := answer;
    if q.qtype == TypeAAAA {
      var res := lookup(q.name);
      if res.Ok? {
        out := AppendSynthesized(out, q.name, nat64, res.value, parses);
      }
    }
  }

  /** The outer loop of `parseQuery`: each question's answers in turn,
      appended after the answers already there */
  method AppendAnswers(answer: seq<Record>, qs: seq<Question>, nat64: string, lookup: Lookup, parses: RecordParser)
    returns (out: seq<Record>)
    ensures out == answer + Contributions(qs, nat64, lookup, parses)
  {
    out := answer;
    ghost var added: seq<Record> := [];
    for i := 0 to |qs|
      invariant added == Contributions(qs[..i], nat64, lookup, parses)
      invariant out == answer + added
    {
      ghost var c := Contribution(qs[i], nat64, lookup, parses);
      out := AnswerQuestion(out, qs[i], nat64, lookup, parses);
      AnswersAfterOneMore(qs, i, nat64, lookup, parses);
      ConcatAssoc(answer, added, c);
      added := added + c;
    }
    assert qs[..|qs|] == qs;
  }

  /** `parseQuery` on a whole message: only the answer section changes, the
      answers already there stay in front, and the answers of the questions
      follow them */
  method ParseQuery(m: Msg, nat64: string, lookup: Lookup, parses: RecordParser) returns (r: Msg)
    ensures r == m.(answer := m.answer + Contributions(m.question, nat64, lookup, parses))
    ensures |m.answer| <= |r.answer| && r.answer[..|m.answer|] == m.answer
  {
    var answer := AppendAnswers(m.answer, m.question, nat64, lookup, parses);
    r := m.(answer := answer);
  }

  /* ---------------- what the answers are ---------------- */

  /** `rec` answers question `q`: the question asks for AAAA, its lookup
      succeeded, and `rec` is the record for one of the returned address
      texts that is kept */
  ghost predicate AnswersQuestion(rec: Record, q: Question, nat64: string, lookup: Lookup, parses: RecordParser) {
    && q.qtype == TypeAAAA
    && lookup(q.name).Ok?
    && rec.name == q.name
    && exists ip :: ip in lookup(q.name).value && Kept(q.name, nat64, ip, parses) && rec.address == nat64 + ip
  }

  /** The records synthesised for one lookup are exactly the records of
      its kept address texts: each is named after the question and carries
      the prefix followed by the address text */
  lemma {:induction false} SynthesizedMembership(rec: Record, name: string, nat64: string, ips: seq<string>, parses: RecordParser)
    ensures rec in Synthesized(name, nat64, ips, parses) <==>
              rec.name == name && exists ip :: ip in ips && Kept(name, nat64, ip, parses) && rec.address == nat64 + ip
    decreases |ips|
  {
    if ips != [] {
      SynthesizedMembership(rec, name, nat64, ips[1..], parses);
      if rec.name == name && rec.address == nat64 + ips[0] && Kept(name, nat64, ips[0], parses) {
        assert rec == AAAA(name, nat64 + ips[0]);
      }
      forall ip | ip in ips
        ensures ip == ips[0] || ip in ips[1..]
      {
        var k :| 0 <= k < |ips| && ips[k] == ip;
        if k > 0 {
          assert ips[1..][k - 1] == ip;
        }
      }
    }
  }

  /** A question's answers are exactly the records that answer it */
  lemma ContributionMembership(rec: Record, q: Question, nat64: string, lookup: Lookup, parses: RecordParser)
    ensures rec in Contribution(q, nat64, lookup, parses) <==> AnswersQuestion(rec, q, nat64, lookup, parses)
  {
    if q.qtype == TypeAAAA && lookup(q.name).Ok? {
      SynthesizedMembership(rec, q.name, nat64, lookup(q.name).value, parses);
    }
  }

  /** Every answer the walk adds answers one of the questions, and every
      record that answers one of the questions is added */
  lemma {:induction false} AnswerProvenance(rec: Record, qs: seq<Question>, nat64: string, lookup: Lookup, parses: RecordParser)
    ensures rec in Contributions(qs, nat64, lookup, parses) <==>
              exists k :: 0 <= k < |qs| && AnswersQuestion(rec, qs[k], nat64, lookup, parses)
    decreases |qs|
  {
    if qs != [] {
      ContributionMembership(rec, qs[0], nat64, lookup, parses);
      AnswerProvenance(rec, qs[1..], nat64, lookup, parses);
      if exists k :: 0 <= k < |qs| && AnswersQuestion(rec, qs[k], nat64, lookup, parses) {
        var k :| 0 <= k < |qs| && AnswersQuestion(rec, qs[k], nat64, lookup, parses);
        if k > 0 {
          assert qs[1..][k - 1] == qs[k];
        }
      }
      if exists k :: 0 <= k < |qs[1..]| && AnswersQuestion(rec, qs[1..][k], nat64, lookup, parses) {
        var k :| 0 <= k < |qs[1..]| && AnswersQuestion(rec, qs[1..][k], nat64, lookup, parses);
        assert qs[k + 1] == qs[1..][k];
      }
    }
  }

  /** A question adds nothing exactly when it does not ask for AAAA, its
      lookup fails, or none of the returned address texts is kept */
  lemma ContributionEmpty(q: Question, nat64: string, lookup: Lookup, parses: RecordParser)
    ensures Contribution(q, nat64, lookup, parses) == [] <==>
              || q.qtype != TypeAAAA
              || lookup(q.name).Err?
              || forall ip :: ip in lookup(q.name).value ==> !Kept(q.name, nat64, ip, parses)
  {
    if q.qtype == TypeAAAA && lookup(q.name).Ok? {
      var ips := lookup(q.name).value;
      var rs := Contribution(q, nat64, lookup, parses);
      if rs != [] {
        SynthesizedMembership(rs[0], q.name, nat64, ips, parses);
      }
      if exists ip :: ip in ips && Kept(q.name, nat64, ip, parses) {
        var ip :| ip in ips && Kept(q.name, nat64, ip, parses);
        SynthesizedMembership(AAAA(q.name, nat64 + ip), q.name, nat64, ips, parses);
      }
    }
  }

  /** The lookup is consulted only for the names of AAAA questions: two
      lookups that agree on those names give the same answers */
  lemma {:induction false} LookupOnlyForAAAA(qs: seq<Question>, nat64: string, l1: Lookup, l2: Lookup, parses: RecordParser)
    requires forall k :: 0 <= k < |qs| && qs[k].qtype == TypeAAAA ==> l1(qs[k].name) == l2(qs[k].name)
    ensures Contributions(qs, nat64, l1, parses) == Contributions(qs, nat64, l2, parses)
    decreases |qs|
  {
    if qs != [] {
      LookupOnlyForAAAA(qs[1..], nat64, l1, l2, parses);
    }
  }

  /** A query with no AAAA question gets no answers, whatever the upstream
      would have said */
  lemma {:induction false} NoAAAAQuestionNoAnswers(qs: seq<Question>, nat64: string, lookup: Lookup, parses: RecordParser)
    requires forall k :: 0 <= k < |qs| ==> qs[k].qtype != TypeAAAA
    ensures Contributions(qs, nat64, lookup, parses) == []
    decreases |qs|
  {
    if qs != [] {
      NoAAAAQuestionNoAnswers(qs[1..], nat64, lookup, parses);
    }
  }
}
