/**
 * The text analysis that the handler performs on an accepted input: a word
 * count, two keyword tests, the ordered list of detected topics and the
 * summary sentence returned to the caller.
 */
module Analysis {
  import opened Whitespace
  import opened Search
  import opened Decimal

  /** The alternatives of the networking pattern, in the order they are written. */
  const NetworkingKeywords: seq<string> :=
    ["network", "protocol", "dns", "tcp", "ip", "routing", "vlan", "osi"]

  /** The alternatives of the security pattern, in the order they are written. */
  const SecurityKeywords: seq<string> :=
    ["security", "ssl", "tls", "firewall", "encryption", "hash"]

  const NetworkingTopic: string := "Networking"
  const SecurityTopic: string := "Security"

  /** The record the handler fills in while analysing one input. */
  datatype Analysis = Analysis(input: string, wordCount: nat, detectedTopics: seq<string>, summary: string)

  // ---------------------------------------------------------------- word count

  /** `userInput.trim().split(/\s+/).length`. A blank input still gives one (empty) piece. */
  function WordCount(input: string): (n: nat)
    ensures n >= 1
    ensures AllSpace(input) ==> n == 1
  {
    |SplitOnSpaceRuns(Trim(input))|
  }

  /** For an input with any non-whitespace character, the count is the number of maximal non-whitespace runs. */
  lemma WordCountIsRunCount(input: string)
    requires !AllSpace(input)
    ensures WordCount(input) == RunCount(input) >= 1
  {
    var lead, trail := TrimDropsOnlySpace(input);
    var t := Trim(input);
    SplitCountsRuns(t);
    RunCountIgnoresPadding(lead, t, trail);
  }

  lemma AllSpaceAppend(a: string, b: string)
    ensures AllSpace(a + b) <==> AllSpace(a) && AllSpace(b)
  {
    if AllSpace(a) && AllSpace(b) {
      forall k | 0 <= k < |a + b| ensures IsSpace((a + b)[k]) {
        if k >= |a| {
          assert (a + b)[k] == b[k - |a|];
        }
      }
    }
    if AllSpace(a + b) {
      forall k | 0 <= k < |a| ensures IsSpace(a[k]) {
        assert (a + b)[k] == a[k];
      }
      forall k | 0 <= k < |b| ensures IsSpace(b[k]) {
        assert (a + b)[|a| + k] == b[k];
      }
    }
  }

  /** Leading and trailing whitespace do not change the word count. */
  lemma WordCountIgnoresPadding(lead: string, input: string, trail: string)
    requires AllSpace(lead) && AllSpace(trail)
    ensures WordCount(lead + input + trail) == WordCount(input)
  {
    AllSpaceAppend(lead, input);
    AllSpaceAppend(lead + input, trail);
    if !AllSpace(input) {
      WordCountIsRunCount(input);
      WordCountIsRunCount(lead + input + trail);
      RunCountIgnoresPadding(lead, input, trail);
    }
  }

  /** Widening or narrowing a whitespace run between two parts does not change the word count. */
  lemma WordCountIgnoresRunLength(a: string, gap1: string, gap2: string, b: string)
    requires gap1 != [] && AllSpace(gap1) && gap2 != [] && AllSpace(gap2)
    ensures WordCount(a + gap1 + b) == WordCount(a + gap2 + b)
  {
    AllSpaceAppend(a, gap1);
    AllSpaceAppend(a + gap1, b);
    AllSpaceAppend(a, gap2);
    AllSpaceAppend(a + gap2, b);
    if !AllSpace(a + gap1 + b) {
      WordCountIsRunCount(a + gap1 + b);
      WordCountIsRunCount(a + gap2 + b);
      RunCountIgnoresRunLength(a, gap1, gap2, b);
    }
  }

  // ---------------------------------------------------------------- keyword tests

  /** `/network|protocol|dns|tcp|ip|routing|vlan|osi/i.test(input)`. */
  function HasNetworking(input: string): bool {
    OccursAny(input, NetworkingKeywords)
  }

  /** `/security|ssl|tls|firewall|encryption|hash/i.test(input)`. */
  function HasSecurity(input: string): bool {
    OccursAny(input, SecurityKeywords)
  }

  /** The networking test holds exactly when a networking keyword occurs anywhere, ignoring ASCII case. */
  lemma HasNetworkingMatches(input: string)
    ensures HasNetworking(input)
        <==> exists k, i :: 0 <= k < |NetworkingKeywords| && MatchesAt(input, NetworkingKeywords[k], i)
  {
    OccursAnyMatches(input, NetworkingKeywords);
  }

  /** The security test holds exactly when a security keyword occurs anywhere, ignoring ASCII case. */
  lemma HasSecurityMatches(input: string)
    ensures HasSecurity(input)
        <==> exists k, i :: 0 <= k < |SecurityKeywords| && MatchesAt(input, SecurityKeywords[k], i)
  {
    OccursAnyMatches(input, SecurityKeywords);
  }

  /** A networking keyword inside any text, even inside a longer word, sets off the networking test. */
  lemma NetworkingKeywordAnywhere(before: string, k: nat, after: string)
    requires k < |NetworkingKeywords|
    ensures HasNetworking(before + NetworkingKeywords[k] + after)
  {
    var keyword := NetworkingKeywords[k];
    var s := before + keyword + after;
    assert s[|before|..|before| + |keyword|] == keyword;
    assert MatchesAt(s, keyword, |before|);
    HasNetworkingMatches(s);
  }

  /** A security keyword inside any text, even inside a longer word, sets off the security test. */
  lemma SecurityKeywordAnywhere(before: string, k: nat, after: string)
    requires k < |SecurityKeywords|
    ensures HasSecurity(before + SecurityKeywords[k] + after)
  {
    var keyword := SecurityKeywords[k];
    var s := before + keyword + after;
    assert s[|before|..|before| + |keyword|] == keyword;
    assert MatchesAt(s, keyword, |before|);
    HasSecurityMatches(s);
  }

  /** Matching ignores case and word boundaries: "ZIP" contains "ip". */
  lemma ZipMentionsNetworking()
    ensures HasNetworking("ZIP file")
  {
    assert MatchesAt("ZIP file", "ip", 1);
    assert NetworkingKeywords[4] == "ip";
    HasNetworkingMatches("ZIP file");
  }

  // ---------------------------------------------------------------- topics

  /** `a` can be obtained from `b` by deleting elements, keeping the order of the rest. */
  predicate SubsequenceOf(a: seq<string>, b: seq<string>)
    decreases |b|
  {
    if a == [] then true
    else if b == [] then false
    else if a[0] == b[0] then SubsequenceOf(a[1..], b[1..])
    else SubsequenceOf(a, b[1..])
  }

  predicate NoDuplicates(s: seq<string>) {
    forall i, j :: 0 <= i < j < |s| ==> s[i] != s[j]
  }

  /** A topic list the handler can produce: the two labels, either or both left out, in their fixed order. */
  predicate ValidTopics(topics: seq<string>) {
    SubsequenceOf(topics, [NetworkingTopic, SecurityTopic])
  }

  lemma ValidTopicsCases(topics: seq<string>)
    requires ValidTopics(topics)
    ensures topics == [] || topics == [NetworkingTopic] || topics == [SecurityTopic]
         || topics == [NetworkingTopic, SecurityTopic]
  {
    assert [NetworkingTopic, SecurityTopic][1..] == [SecurityTopic];
    if topics != [] && topics[0] == NetworkingTopic {
      OnlySecurity(topics[1..]);
      assert topics == [NetworkingTopic] + topics[1..];
    } else {
      OnlySecurity(topics);
    }
  }

  lemma OnlySecurity(topics: seq<string>)
    requires SubsequenceOf(topics, [SecurityTopic])
    ensures topics == [] || topics == [SecurityTopic]
  {
    assert [SecurityTopic][1..] == [];
    if topics != [] {
      if topics[0] == SecurityTopic {
        assert SubsequenceOf(topics[1..], []);
        assert topics == [SecurityTopic] + topics[1..];
      }
    }
  }

  /**
   * The topic list built by pushing "Networking" when the networking test
   * holds and then "Security" when the security test holds.
   */
  function Topics(hasNetworking: bool, hasSecurity: bool): (topics: seq<string>)
    ensures ValidTopics(topics)
    ensures NetworkingTopic in topics <==> hasNetworking
    ensures SecurityTopic in topics <==> hasSecurity
    ensures |topics| <= 2 && NoDuplicates(topics)
  {
    (if hasNetworking then [NetworkingTopic] else []) + (if hasSecurity then [SecurityTopic] else [])
  }

  // ---------------------------------------------------------------- summary

  /** `Array.prototype.join`: the parts with `separator` between neighbours. */
  function Join(parts: seq<string>, separator: string): string {
    if parts == [] then ""
    else if |parts| == 1 then parts[0]
    else parts[0] + separator + Join(parts[1..], separator)
  }

  /** The part of the detected-topics sentence before the word count. */
  function DetectedLead(topics: seq<string>): string {
    "Detected " + NatToString(|topics|) + " topic(s): " + Join(topics, ", ") + ". Input has "
  }

  /** The sentence for an input in which at least one topic was detected. */
  function DetectedSummary(topics: seq<string>, wordCount: nat): string {
    DetectedLead(topics) + NatToString(wordCount) + " word(s)."
  }

  /** The sentence for an input in which no topic was detected. */
  function GenericSummary(wordCount: nat): string {
    "Generic input with " + NatToString(wordCount) + " word(s). No networking/security keywords detected."
  }

  /** The summary chosen by whether any topic was detected. */
  function Summary(topics: seq<string>, wordCount: nat): string {
    if |topics| > 0 then DetectedSummary(topics, wordCount) else GenericSummary(wordCount)
  }

  /** The summary of an accepted input: a function of the input string alone. */
  function Report(input: string): string {
    Summary(Topics(HasNetworking(input), HasSecurity(input)), WordCount(input))
  }

  lemma CancelAround(a: string, x: string, y: string, b: string)
    requires a + x + b == a + y + b
    ensures x == y
  {
    var s := a + x + b;
    assert x == s[|a|..|s| - |b|];
    assert y == s[|a|..|s| - |b|];
  }

  /** Where the topic count and the first topic stand in the detected-topics sentence. */
  lemma DetectedLeadChars(topics: seq<string>)
    requires ValidTopics(topics) && topics != []
    ensures |topics| <= 2 && topics[0] != []
    ensures |DetectedLead(topics)| > 21
    ensures DetectedLead(topics)[9] == DigitChar(|topics|)
    ensures DetectedLead(topics)[21] == topics[0][0]
  {
    ValidTopicsCases(topics);
    var count := NatToString(|topics|);
    assert count == [DigitChar(|topics|)];
    var joined := Join(topics, ", ");
    assert joined[..|topics[0]|] == topics[0];
    var head := "Detected " + count + " topic(s): ";
    assert |head| == 21;
    assert DetectedLead(topics) == head + (joined + ". Input has ");
  }

  /** Valid topic lists of the same length and the same first letter are the same list. */
  lemma TopicsFromLength(topics1: seq<string>, topics2: seq<string>)
    requires ValidTopics(topics1) && ValidTopics(topics2)
    requires topics1 != [] && topics2 != [] && topics1[0] != [] && topics2[0] != []
    requires |topics1| == |topics2| && topics1[0][0] == topics2[0][0]
    ensures topics1 == topics2
  {
    ValidTopicsCases(topics1);
    ValidTopicsCases(topics2);
  }

  /** The first letter of a summary tells which of the two sentences it is. */
  lemma SummaryFirstChar(topics: seq<string>, wordCount: nat)
    ensures |Summary(topics, wordCount)| > 0
    ensures Summary(topics, wordCount)[0] == if topics == [] then 'G' else 'D'
  {
  }

  /**
   * The summary is unambiguous: it determines both the topic list and the
   * word count it was built from.
   */
  lemma SummaryInjective(topics1: seq<string>, words1: nat, topics2: seq<string>, words2: nat)
    requires ValidTopics(topics1) && ValidTopics(topics2)
    requires Summary(topics1, words1) == Summary(topics2, words2)
    ensures topics1 == topics2 && words1 == words2
  {
    var s := Summary(topics1, words1);
    var w1, w2 := NatToString(words1), NatToString(words2);
    SummaryFirstChar(topics1, words1);
    SummaryFirstChar(topics2, words2);
    if topics1 == [] {
      CancelAround("Generic input with ", w1, w2,
        " word(s). No networking/security keywords detected.");
    } else {
      DetectedLeadChars(topics1);
      DetectedLeadChars(topics2);
      assert s[9] == DetectedLead(topics1)[9] == DetectedLead(topics2)[9];
      assert s[21] == DetectedLead(topics1)[21] == DetectedLead(topics2)[21];
      TopicsFromLength(topics1, topics2);
      CancelAround(DetectedLead(topics1), w1, w2, " word(s).");
    }
    NatToStringInjective(words1, words2);
  }

  /** The summary opens with "Detected" exactly when one of the keyword tests holds, and "Generic" otherwise. */
  lemma ReportDetects(input: string)
    ensures |Report(input)| > 0
    ensures Report(input)[0] == 'D' <==> HasNetworking(input) || HasSecurity(input)
    ensures Report(input)[0] == 'G' <==> !HasNetworking(input) && !HasSecurity(input)
    ensures HasNetworking(input) || HasSecurity(input)
        ==> Report(input) == DetectedSummary(Topics(HasNetworking(input), HasSecurity(input)), WordCount(input))
    ensures !HasNetworking(input) && !HasSecurity(input) ==> Report(input) == GenericSummary(WordCount(input))
  {
    SummaryFirstChar(Topics(HasNetworking(input), HasSecurity(input)), WordCount(input));
  }

  /** For an accepted input, the count in the summary is the number of maximal non-whitespace runs. */
  lemma ReportCountsRuns(input: string)
    requires !AllSpace(input)
    ensures Report(input) == Summary(Topics(HasNetworking(input), HasSecurity(input)), RunCount(input))
  {
    WordCountIsRunCount(input);
  }

  // ---------------------------------------------------------------- the analysis step

  /**
   * Fills in the analysis record as the handler does: the word count and the
   * two keyword tests, then the topic list by appending, then the summary.
   */
  method Analyze(userInput: string) returns (analysis: Analysis)
    ensures analysis.input == userInput && analysis.wordCount == WordCount(userInput)
    ensures analysis.detectedTopics == Topics(HasNetworking(userInput), HasSecurity(userInput))
    ensures analysis.summary == Report(userInput)
  {
    var wordCount := WordCount(userInput);
    var hasNetworking := HasNetworking(userInput);
    var hasSecurity := HasSecurity(userInput);
    analysis := Analysis(userInput, wordCount, [], "");
    if hasNetworking {
      analysis := analysis.(detectedTopics := analysis.detectedTopics + [NetworkingTopic]);
    }
    if hasSecurity {
      analysis := analysis.(detectedTopics := analysis.detectedTopics + [SecurityTopic]);
    }
    if |analysis.detectedTopics| > 0 {
      analysis := analysis.(summary := DetectedSummary(analysis.detectedTopics, wordCount));
    } else {
      analysis := analysis.(summary := GenericSummary(wordCount));
    }
  }
}
