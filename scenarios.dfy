/**
 * Worked requests: concrete inputs and the answers the handler gives them.
 */
module Scenarios {
  import opened Whitespace
  import opened Analysis
  import opened Handler
  import opened Decimal

  /** A GET request is refused, whatever it carries. */
  lemma GetIsRefused(body: Body)
    ensures Respond("GET", body) == Response(405, ErrorEnvelope(MethodNotAllowed))
  {
  }

  /** A missing body, a falsy input and the empty string all become `''` and get the same answer. */
  lemma EmptyInputsAgree(httpMethod: string)
    ensures Respond(httpMethod, NoBody) == Respond(httpMethod, Parsed(OtherFalsy))
    ensures Respond(httpMethod, Parsed(OtherFalsy)) == Respond(httpMethod, Parsed(Text("")))
  {
    ResultDependsOnlyOnInput(httpMethod, NoBody, Parsed(OtherFalsy));
    ResultDependsOnlyOnInput(httpMethod, Parsed(OtherFalsy), Parsed(Text("")));
  }

  /** A whitespace-only input is refused as missing. */
  lemma BlankInputIsRefused()
    ensures Respond("POST", Parsed(Text(" \t\n"))) == Response(400, ErrorEnvelope(NoInputProvided))
  {
    assert AllSpace(" \t\n");
  }

  lemma TrimTwoWords()
    ensures Trim("tls ip") == "tls ip"
  {
  }

  lemma SpansOfTwoWords()
    ensures WordSpan("tls ip") == 3 && SpaceSpan(" ip") == 1
  {
  }

  lemma SplitOneWord()
    ensures SplitOnSpaceRuns("ip") == ["ip"]
  {
  }

  lemma SplitTwoWords()
    ensures SplitOnSpaceRuns("tls ip") == ["tls", "ip"]
  {
    SpansOfTwoWords();
    SplitOneWord();
    assert "tls ip"[..3] == "tls";
    assert "tls ip"[3..] == " ip";
    assert " ip"[1..] == "ip";
  }

  lemma TwoWords()
    ensures WordCount("tls ip") == 2
  {
    TrimTwoWords();
    SplitTwoWords();
  }

  lemma NetworkingInExample()
    ensures HasNetworking("tls ip")
  {
    NetworkingKeywordAnywhere("tls ", 4, "");
  }

  lemma SecurityInExample()
    ensures HasSecurity("tls ip")
  {
    SecurityKeywordAnywhere("", 2, " ip");
  }

  /** "tls ip" mentions both topics, in the fixed order, and has two words. */
  lemma BothTopicsReport()
    ensures Report("tls ip") == DetectedSummary([NetworkingTopic, SecurityTopic], 2)
  {
    TwoWords();
    NetworkingInExample();
    SecurityInExample();
    assert Topics(true, true) == [NetworkingTopic, SecurityTopic];
  }

  /** The accepted request carrying "tls ip" is answered with that summary. */
  lemma BothTopicsAccepted()
    ensures Respond("POST", Parsed(Text("tls ip")))
         == Response(200, ResultEnvelope(DetectedSummary([NetworkingTopic, SecurityTopic], 2)))
  {
    BothTopicsReport();
    assert !AllSpace("tls ip") by { assert !IsSpace("tls ip"[0]); }
  }

  lemma NoKeywordInOk()
    ensures !HasNetworking("ok") && !HasSecurity("ok")
  {
  }

  /** The generic sentence for one word, written out. */
  lemma GenericSentenceForOneWord()
    ensures GenericSummary(1)
         == "Generic input with " + "1" + " word(s). No networking/security keywords detected."
  {
    assert NatToString(1) == "1";
  }

  /** "ok" contains no keyword and is one word. */
  lemma GenericReport()
    ensures Report("ok") == GenericSummary(1)
    ensures Report("ok")
         == "Generic input with " + "1" + " word(s). No networking/security keywords detected."
  {
    NoKeywordInOk();
    assert Topics(false, false) == [];
    GenericSentenceForOneWord();
  }
}
