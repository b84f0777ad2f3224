/** Single questions run through dispatch with the upstream answers fixed:
    the synthesis example of RFC 6052 mixed notation, an empty answer, a
    failed lookup and a question of another type. */
module DispatchExamples {
  import opened Wrappers
  import opened DnsMsg
  import opened Dispatch

  const ExampleQuestion: Question := Question("example.com.", TypeAAAA, 1)

  /** `93.184.216.34` under `64:ff9b::` becomes the single record
      `64:ff9b::93.184.216.34`, the `x:x::d.d.d.d` form of section 2.2 of
      RFC 4291 */
  lemma SynthesisExample(lookup: Lookup, parses: RecordParser)
    requires lookup("example.com.") == Ok(["93.184.216.34"])
    requires parses("example.com. AAAA 64:ff9b::93.184.216.34")
    ensures Contribution(ExampleQuestion, "64:ff9b::", lookup, parses)
            == [AAAA("example.com.", "64:ff9b::93.184.216.34")]
  {
    var ip := "93.184.216.34";
    assert ip[2] == '.';
    assert RecordText("example.com.", "64:ff9b::" + ip) == "example.com. AAAA 64:ff9b::93.184.216.34";
    assert "64:ff9b::" + ip == "64:ff9b::93.184.216.34";
    assert ["93.184.216.34"][1..] == [];
  }

  /** A lookup that finds no A records answers the question with nothing */
  lemma NoAddressesNoAnswers(lookup: Lookup, parses: RecordParser)
    requires lookup("example.com.") == Ok([])
    ensures Contribution(ExampleQuestion, "64:ff9b::", lookup, parses) == []
  {
  }

  /** A failed lookup answers the question with nothing */
  lemma FailedLookupNoAnswers(lookup: Lookup, parses: RecordParser)
    requires lookup("example.com.").Err?
    ensures Contribution(ExampleQuestion, "64:ff9b::", lookup, parses) == []
  {
  }

  /** An A or MX question is never answered, whatever the upstream holds */
  lemma OtherTypesNoAnswers(lookup: Lookup, parses: RecordParser)
    ensures Contribution(Question("example.com.", TypeA, 1), "64:ff9b::", lookup, parses) == []
    ensures Contribution(Question("example.com.", 15, 1), "64:ff9b::", lookup, parses) == []
  {
  }

  /** An address text without a dot is dropped even when its record text
      would parse */
  lemma DotlessAddressDropped(lookup: Lookup, parses: RecordParser)
    requires lookup("example.com.") == Ok(["2001:db8::1"])
    ensures Contribution(ExampleQuestion, "64:ff9b::", lookup, parses) == []
  {
    assert '.' !in "2001:db8::1";
  }
}
