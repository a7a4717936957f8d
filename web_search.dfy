/**
 * The WebSearch tool (`search_web` in agent.py): a scan of a built-in table
 * of key phrases, then two outbound lookups (a Wikipedia page summary and a
 * DuckDuckGo instant answer) whose replies are given here as parameters.
 * The answer comes with the list of requests that would have been sent, so
 * that "no request is sent" is something a contract can state.
 */
module WebSearch {
  import opened Wrappers
  import opened Text

  /** The key phrases of the knowledge table, in the order they are scanned (a Python dict keeps insertion order). */
  const Keys: seq<string> := [
    "capital of india",
    "oldest tree",
    "top monuments in india",
    "taj mahal",
    "red fort",
    "qutub minar",
    "gateway of india",
    "hawa mahal",
    "monuments in india"
  ]

  /** The text stored under `Keys[i]`. */
  function StoredText(i: nat): string
    requires i < |Keys|
  {
    if i == 0 then "The capital of India is New Delhi."
    else if i == 1 then "Methuselah, a Great Basin bristlecone pine in California, is among the oldest known living trees at over 4,800 years old."
    else if i == 2 then "The top 5 monuments to visit in India are:\n1. Taj Mahal (Agra) - A white marble mausoleum built by Emperor Shah Jahan in memory of his wife Mumtaz Mahal.\n2. Red Fort (Delhi) - A historic fort that served as the main residence of the Mughal Emperors.\n3. Qutub Minar (Delhi) - The tallest brick minaret in the world and a UNESCO World Heritage Site.\n4. Gateway of India (Mumbai) - An arch monument built during the 20th century to commemorate the landing of King George V and Queen Mary.\n5. Hawa Mahal (Jaipur) - A palace known for its unique five-story exterior with 953 small windows called jharokhas."
    else if i == 3 then "The Taj Mahal is a white marble mausoleum located in Agra, India. It was built by Emperor Shah Jahan between 1631 and 1648 in memory of his favorite wife, Mumtaz Mahal. It's considered one of the most beautiful buildings in the world and a masterpiece of Mughal architecture, combining elements from Persian, Islamic, and Indian architectural styles. The Taj Mahal is a UNESCO World Heritage Site and one of the New Seven Wonders of the World."
    else if i == 4 then "The Red Fort is a historic fort in Old Delhi, India, that served as the main residence of the Mughal Emperors. Built in 1639 by Emperor Shah Jahan, it's known for its massive red sandstone walls. Every year on India's Independence Day (August 15), the Prime Minister hoists the national flag at the Red Fort and delivers a nationally broadcast speech."
    else if i == 5 then "Qutub Minar is a 73-meter tall minaret in Delhi, India. Construction began in 1193 under Qutb al-Din Aibak and was completed by his successor. It's the tallest brick minaret in the world and a UNESCO World Heritage Site, known for its intricate carvings and verses from the Quran."
    else if i == 6 then "The Gateway of India is an arch monument in Mumbai, built during the 20th century to commemorate the landing of King George V and Queen Mary at Apollo Bunder in 1911. It's a popular tourist attraction and a symbol of Mumbai, located on the waterfront overlooking the Arabian Sea."
    else if i == 7 then "Hawa Mahal (Palace of Winds) is a palace in Jaipur, India, built in 1799 by Maharaja Sawai Pratap Singh. It has a unique five-story exterior resembling a honeycomb with 953 small windows called jharokhas. These windows allowed royal ladies to observe street festivals while remaining unseen, as they had to follow strict 'purdah' (face covering)."
    else "India is home to numerous historical monuments including the Taj Mahal (Agra), Red Fort (Delhi), Qutub Minar (Delhi), Gateway of India (Mumbai), Hawa Mahal (Jaipur), Ajanta and Ellora Caves (Maharashtra), Konark Sun Temple (Odisha), Khajuraho Temples (Madhya Pradesh), Hampi Ruins (Karnataka), and Fatehpur Sikri (Uttar Pradesh)."
  }

  /** The query as it is matched: lower-cased, then stripped of surrounding whitespace. */
  function Normalize(query: string): (r: string)
    ensures |r| <= |query|
    ensures r != [] ==> !IsSpace(r[0]) && !IsSpace(r[|r| - 1])
    ensures LowerStr(r) == r
  {
    StripLowerCommute(query);
    LowerIdempotent(Strip(query));
    Strip(LowerStr(query))
  }

  /** The table test: the query is part of the key, or the key is part of the query. */
  predicate Matches(q: string, key: string) {
    Contains(q, key) || Contains(key, q)
  }

  /** The position of the first key that matches `q`, if any. */
  function FirstMatch(q: string, keys: seq<string>): (r: Option<nat>)
    ensures r.Some? ==> r.value < |keys| && Matches(q, keys[r.value])
    ensures r.Some? ==> forall j :: 0 <= j < r.value ==> !Matches(q, keys[j])
    ensures r.None? ==> forall j :: 0 <= j < |keys| ==> !Matches(q, keys[j])
  {
    if keys == [] then None
    else if Matches(q, keys[0]) then Some(0)
    else match FirstMatch(q, keys[1..])
      case None => None
      case Some(i) => Some(i + 1)
  }

  function ResultLine(text: string): string {
    "Search result: " + text
  }

  /** What the table scan answers for `query`: the text under the first matching key, prefixed. */
  function KnowledgeAnswer(query: string): (r: Option<string>)
    ensures r.None? <==> forall j :: 0 <= j < |Keys| ==> !Matches(Normalize(query), Keys[j])
    ensures r.Some? ==> exists i :: 0 <= i < |Keys| && Matches(Normalize(query), Keys[i]) && r.value == ResultLine(StoredText(i))
  {
    match FirstMatch(Normalize(query), Keys)
    case None => None
    case Some(i) => Some(ResultLine(StoredText(i)))
  }

  /** The scan loop of `search_web` over `keys` in order; the first key that matches stops it. */
  method ScanKeys(q: string, keys: seq<string>) returns (found: Option<nat>)
    ensures found.Some? <==> exists j :: 0 <= j < |keys| && Matches(q, keys[j])
    ensures found == FirstMatch(q, keys)
  {
    var i := 0;
    while i < |keys|
      invariant 0 <= i <= |keys|
      invariant forall j :: 0 <= j < i ==> !Matches(q, keys[j])
    {
      var key := keys[i];
      if Contains(q, key) || Contains(key, q) {
        return Some(i);
      }
      i := i + 1;
    }
    return None;
  }

  /** The table part of `search_web`: normalise the query, scan the keys, answer with the text found. */
  method ScanKnowledge(query: string) returns (answer: Option<string>)
    ensures answer == KnowledgeAnswer(query)
  {
    var q := Normalize(query);
    var found := ScanKeys(q, Keys);
    if found.Some? {
      return Some(ResultLine(StoredText(found.value)));
    }
    return None;
  }

  lemma {:induction false} NormalizeIgnoresCaseAndPadding(a: string, query: string, b: string)
    requires AllSpace(a) && AllSpace(b)
    ensures Normalize(a + query + b) == Normalize(query)
    ensures Normalize(UpperStr(query)) == Normalize(query)
  {
    LowerAppend(a + query, b);
    LowerAppend(a, query);
    LowerKeepsSpace(a);
    LowerKeepsSpace(b);
    StripIgnoresPadding(a, LowerStr(query), b);
    LowerOfUpper(query);
  }

  /** Case never matters to the table scan, and neither does surrounding whitespace. */
  lemma {:induction false} KnowledgeIgnoresCaseAndPadding(a: string, query: string, b: string)
    requires AllSpace(a) && AllSpace(b)
    ensures KnowledgeAnswer(a + query + b) == KnowledgeAnswer(query)
    ensures KnowledgeAnswer(UpperStr(query)) == KnowledgeAnswer(query)
  {
    NormalizeIgnoresCaseAndPadding(a, query, b);
  }

  /** A query that is blank once stripped is part of every key, so it gets the first entry. */
  lemma {:induction false} BlankQueryHitsFirstEntry(query: string)
    requires AllSpace(query)
    ensures KnowledgeAnswer(query) == Some(ResultLine(StoredText(0)))
  {
    LowerKeepsSpace(query);
    AllSpaceStripsToEmpty(query);
    EmptyContained(Keys[0]);
  }

  /** "india" is part of the key "capital of india". */
  lemma IndiaInCapitalKey()
    ensures Matches("india", Keys[0])
  {
    assert Keys[0] == "capital of " + "india" + "";
    QuotedContained("capital of ", "india", "");
  }

  /** A short word is part of an unrelated longer key: "India" gets the entry about the capital. */
  lemma ShortWordHitsCapitalEntry()
    ensures KnowledgeAnswer("India") == Some(ResultLine(StoredText(0)))
  {
    assert LowerStr("India") == "india";
    assert Strip("india") == "india";
    IndiaInCapitalKey();
  }

  /**
   * No query that is part of "monuments in india" ever reaches that entry:
   * the earlier key "top monuments in india" contains it, so the scan stops there or before.
   */
  lemma {:induction false} MonumentsEntryShadowed(query: string)
    requires Contains(Normalize(query), "monuments in india")
    ensures FirstMatch(Normalize(query), Keys).Some?
    ensures FirstMatch(Normalize(query), Keys).value <= 2
  {
    var q := Normalize(query);
    MonumentsInTopMonuments();
    ContainsTransitive(q, "monuments in india", Keys[2]);
  }

  lemma MonumentsInTopMonuments()
    ensures Contains("monuments in india", Keys[2])
  {
    assert Keys[2] == "top " + "monuments in india" + "";
    QuotedContained("top ", "monuments in india", "");
  }

  /** The key "taj mahal" is the first key that "taj mahal" matches. */
  lemma TajMahalMatchesFourthKey()
    ensures FirstMatch("taj mahal", Keys) == Some(3)
  {
    var q := "taj mahal";
    assert q[2] == 'j' && |q| == 9;
    EarlyKeysUnmatched(q);
    TajMahalKey();
    assert IsPrefix(q, Keys[3]);
    FirstMatchAt(q, Keys, 3);
  }

  lemma TajMahalKey()
    ensures Keys[3] == "taj mahal"
  {
  }

  /** A query of at most nine characters with a 'j' matches none of the first three keys. */
  lemma EarlyKeysUnmatched(q: string)
    requires |q| <= 9 && 'j' in q
    ensures forall j :: 0 <= j < 3 ==> !Matches(q, Keys[j])
  {
    var k :| 0 <= k < |q| && q[k] == 'j';
    EarlyKeysLackJ();
    forall j | 0 <= j < 3
      ensures !Matches(q, Keys[j])
    {
      Unmatched(q, Keys[j], k);
    }
  }

  lemma EarlyKeysLackJ()
    ensures forall j :: 0 <= j < 3 ==> 'j' !in Keys[j] && |Keys[j]| > 9
  {
  }

  /** The first key that matches is the one `FirstMatch` finds. */
  lemma {:induction false} FirstMatchAt(q: string, keys: seq<string>, i: nat)
    requires i < |keys| && Matches(q, keys[i])
    requires forall j :: 0 <= j < i ==> !Matches(q, keys[j])
    ensures FirstMatch(q, keys) == Some(i)
    decreases i
  {
    if i > 0 {
      FirstMatchAt(q, keys[1..], i - 1);
    }
  }

  /** A key longer than the query, missing one of its characters, does not match it. */
  lemma Unmatched(q: string, key: string, k: nat)
    requires k < |q| && q[k] !in key && |key| > |q|
    ensures !Matches(q, key)
  {
    LongerNotContained(key, q);
    if Contains(q, key) {
      ContainsKeepsChars(q, key, k);
    }
  }

  lemma TajMahalNormalized()
    ensures Normalize("Taj Mahal") == "taj mahal"
  {
    assert LowerStr("Taj Mahal") == "taj mahal";
    assert Strip("taj mahal") == "taj mahal";
  }

  /** "Taj Mahal" is answered from the table's own entry for it. */
  lemma TajMahalFromTable()
    ensures KnowledgeAnswer("Taj Mahal") == Some(ResultLine(StoredText(3)))
  {
    TajMahalNormalized();
    TajMahalMatchesFourthKey();
  }

  /** One entry of the parsed `RelatedTopics` list; `text` is absent when the entry has no "Text" key. */
  datatype Topic = Topic(text: Option<string>)

  /** The texts of the topics that have one, in order. */
  function TopicTexts(topics: seq<Topic>): (r: seq<string>)
    ensures |r| <= |topics|
    ensures r == [] <==> forall k :: 0 <= k < |topics| ==> topics[k].text.None?
    ensures forall k :: 0 <= k < |r| ==> exists j :: 0 <= j < |topics| && topics[j].text == Some(r[k])
    ensures forall k :: 0 <= k < |topics| && topics[k].text.Some? ==> topics[k].text.value in r
  {
    if topics == [] then []
    else
      var init := TopicTexts(topics[..|topics| - 1]);
      var last := topics[|topics| - 1];
      if last.text.Some? then init + [last.text.value] else init
  }

  /**
   * The texts are kept in order: those of a list of topics followed by
   * another are the first list's texts followed by the second's.
   */
  lemma {:induction false} TopicTextsInOrder(front: seq<Topic>, back: seq<Topic>)
    ensures TopicTexts(front + back) == TopicTexts(front) + TopicTexts(back)
    decreases |back|
  {
    if back == [] {
      assert front + back == front;
    } else {
      var init := back[..|back| - 1];
      var last := back[|back| - 1];
      var extra := if last.text.Some? then [last.text.value] else [];
      TopicTextsInOrder(front, init);
      assert (front + back)[..|front + back| - 1] == front + init;
      assert (front + back)[|front + back| - 1] == last;
      TopicTextsStep(front + back);
      TopicTextsStep(back);
      Regroup(TopicTexts(front), TopicTexts(init), extra);
    }
  }

  /** The texts of a non-empty list are those of all but its last topic, then the last one's, if any. */
  lemma TopicTextsStep(topics: seq<Topic>)
    requires topics != []
    ensures TopicTexts(topics) == TopicTexts(topics[..|topics| - 1])
              + (if topics[|topics| - 1].text.Some? then [topics[|topics| - 1].text.value] else [])
  {
  }

  /** One topic contributes its text exactly when it has one. */
  lemma TopicTextsOfOne(t: Topic)
    ensures TopicTexts([t]) == if t.text.Some? then [t.text.value] else []
  {
    assert [t][..0] == [];
  }

  /** `topics[:3]`: the first three topics, or all of them when there are fewer. */
  function FirstThree(topics: seq<Topic>): (r: seq<Topic>)
    ensures |r| == if |topics| <= 3 then |topics| else 3
    ensures r == topics[..|r|]
  {
    if |topics| <= 3 then topics else topics[..3]
  }

  /** The loop over `RelatedTopics[:3]` that appends each topic's text to `results`. */
  method CollectTopicTexts(topics: seq<Topic>) returns (results: seq<string>)
    ensures |results| <= 3
    ensures results == TopicTexts(FirstThree(topics))
  {
    var first := FirstThree(topics);
    results := [];
    for i := 0 to |first|
      invariant results == TopicTexts(first[..i])
    {
      assert first[..i + 1][..i] == first[..i];
      if first[i].text.Some? {
        results := results + [first[i].text.value];
      }
    }
    assert first[..|first|] == first;
  }

  /** The RelatedTopics answer: the collected texts as a bulleted list, or nothing when none has text. */
  function RelatedSummary(topics: seq<Topic>): (r: Option<string>)
    ensures r.None? <==> forall k :: 0 <= k < |topics| && k < 3 ==> topics[k].text.None?
    ensures r.Some? ==> IsPrefix("Search results:\n- ", r.value)
  {
    var texts := TopicTexts(FirstThree(topics));
    if texts == [] then None
    else Some("Search results:\n- " + Join(texts, "\n- "))
  }

  /** Only the first three topics are looked at: what follows them never changes the answer. */
  lemma RelatedSummaryIgnoresTail(topics: seq<Topic>, more: seq<Topic>)
    requires |topics| >= 3
    ensures RelatedSummary(topics + more) == RelatedSummary(topics)
  {
    assert FirstThree(topics + more) == FirstThree(topics);
  }

  /** Each text collected from the first three topics appears in the summary. */
  lemma SummaryListsEachText(topics: seq<Topic>, k: nat)
    requires k < |TopicTexts(FirstThree(topics))|
    ensures RelatedSummary(topics).Some?
    ensures Contains(TopicTexts(FirstThree(topics))[k], RelatedSummary(topics).value)
  {
    var texts := TopicTexts(FirstThree(topics));
    JoinContainsParts(texts, "\n- ", k);
    ContainedInSuffix(texts[k], "Search results:\n- ", Join(texts, "\n- "));
  }

  /** The text of each of the first three topics that has one appears in the summary. */
  lemma SummaryListsFirstThreeTexts(topics: seq<Topic>, k: nat)
    requires k < |topics| && k < 3 && topics[k].text.Some?
    ensures RelatedSummary(topics).Some?
    ensures Contains(topics[k].text.value, RelatedSummary(topics).value)
  {
    var first := FirstThree(topics);
    assert first[k] == topics[k];
    var texts := TopicTexts(first);
    var i :| 0 <= i < |texts| && texts[i] == topics[k].text.value;
    SummaryListsEachText(topics, i);
  }

  /** The outbound requests `search_web` may send. */
  datatype Request =
    | WikipediaSummary(title: string)  // the page-summary endpoint, keyed by the underscored query
    | DuckDuckGoAnswer(q: string)      // the instant-answer endpoint, keyed by the raw query

  /**
   * What a request gave back: `Raised` when sending it raised; otherwise its
   * status code and its decoded JSON body, `None` when the body is not JSON
   * (decoding is only attempted on status 200, and then raises).
   */
  datatype Reply<B> = Raised | Answered(status: int, body: Option<B>)

  /** The part of a Wikipedia summary that is read: the "extract" field, when present. */
  datatype WikiPage = WikiPage(extract: Option<string>)

  /** The parts of a DuckDuckGo answer that are read; an absent "Abstract" is the empty string. */
  datatype DuckPage = DuckPage(abstractText: string, relatedTopics: seq<Topic>)

  datatype SearchOutcome = SearchOutcome(answer: string, requests: seq<Request>)

  /** The fallback answer quotes the query, and it never reads as a search result. */
  function NoInformation(query: string): (r: string)
    ensures Contains(query, r)
    ensures !IsPrefix("Search result", r)
  {
    var r := "I don't have specific information about '" + query + "'. Please try a different search term or question.";
    QuotedContained("I don't have specific information about '", query, "'. Please try a different search term or question.");
    assert r[0] != "Search result"[0];
    r
  }

  /** `query.replace(' ', '_')` */
  function Underscored(query: string): (r: string)
    ensures |r| == |query|
    ensures forall k :: 0 <= k < |r| ==> r[k] == if query[k] == ' ' then '_' else query[k]
  {
    seq(|query|, k requires 0 <= k < |query| => if query[k] == ' ' then '_' else query[k])
  }

  /** The DuckDuckGo stage, reached when the table and the Wikipedia stage gave nothing. */
  function DuckDuckGoStage(query: string, duck: Reply<DuckPage>): (r: string)
    ensures duck.Raised? || duck.status != 200 || duck.body.None? ==> r == NoInformation(query)
    ensures r == NoInformation(query) || IsPrefix("Search result", r)
  {
    match duck
    case Raised => NoInformation(query)
    case Answered(status, body) =>
      if status != 200 || body.None? then NoInformation(query)
      else if body.value.abstractText != "" then
        ResultLinePrefix(body.value.abstractText);
        ResultLine(body.value.abstractText)
      else match RelatedSummary(body.value.relatedTopics)
        case Some(summary) =>
          SummaryPrefix(summary);
          summary
        case None => NoInformation(query)
  }

  /** An answer line starts "Search result". */
  lemma ResultLinePrefix(text: string)
    ensures IsPrefix("Search result", ResultLine(text))
  {
    assert ResultLine(text)[..13] == "Search result";
  }

  /** So does a bulleted summary. */
  lemma SummaryPrefix(s: string)
    requires IsPrefix("Search results:\n- ", s)
    ensures IsPrefix("Search result", s)
  {
    assert s[..13] == "Search results:\n- "[..13];
  }

  /**
   * With an empty abstract and no text among the first three related topics,
   * the DuckDuckGo stage has nothing to say.
   */
  lemma NoTopicTextNoInformation(query: string, page: DuckPage)
    requires page.abstractText == ""
    requires forall k :: 0 <= k < |page.relatedTopics| && k < 3 ==> page.relatedTopics[k].text.None?
    ensures DuckDuckGoStage(query, Answered(200, Some(page))) == NoInformation(query)
  {
  }

  /** A non-empty abstract is the answer. */
  lemma AbstractIsAnswer(query: string, page: DuckPage)
    requires page.abstractText != ""
    ensures DuckDuckGoStage(query, Answered(200, Some(page))) == ResultLine(page.abstractText)
  {
  }

  /** With no abstract, a page whose first three topics hold some text is answered with their summary. */
  lemma SummaryIsAnswer(query: string, page: DuckPage)
    requires page.abstractText == "" && RelatedSummary(page.relatedTopics).Some?
    ensures DuckDuckGoStage(query, Answered(200, Some(page))) == RelatedSummary(page.relatedTopics).value
  {
  }

  /** The whole tool, given the two replies the outbound requests would get. */
  function Search(query: string, wiki: Reply<WikiPage>, duck: Reply<DuckPage>): (r: SearchOutcome)
    ensures r.requests == [] <==> KnowledgeAnswer(query).Some?
    ensures KnowledgeAnswer(query).Some? ==> r.answer == KnowledgeAnswer(query).value
    ensures |r.requests| <= 2
    ensures r.requests != [] ==> r.requests[0] == WikipediaSummary(Underscored(query))
    ensures |r.requests| == 2 ==> r.requests[1] == DuckDuckGoAnswer(query)
    ensures |r.requests| == 2 <==> r.requests != [] && wiki.Answered? && (wiki.status != 200 || (wiki.body.Some? && wiki.body.value.extract.None?))
    ensures |r.requests| == 2 ==> r.answer == DuckDuckGoStage(query, duck)
    ensures |r.requests| == 1 && wiki.Answered? && wiki.status == 200 && wiki.body.Some? && wiki.body.value.extract.Some? ==>
      r.answer == ResultLine(wiki.body.value.extract.value)
    ensures |r.requests| == 1 && !(wiki.Answered? && wiki.status == 200 && wiki.body.Some? && wiki.body.value.extract.Some?) ==>
      r.answer == NoInformation(query)
  {
    match KnowledgeAnswer(query)
    case Some(answer) => SearchOutcome(answer, [])
    case None =>
      var toWiki := [WikipediaSummary(Underscored(query))];
      match wiki
      case Raised => SearchOutcome(NoInformation(query), toWiki)
      case Answered(status, body) =>
        if status == 200 && body.None? then SearchOutcome(NoInformation(query), toWiki)
        else if status == 200 && body.value.extract.Some? then SearchOutcome(ResultLine(body.value.extract.value), toWiki)
        else SearchOutcome(DuckDuckGoStage(query, duck), toWiki + [DuckDuckGoAnswer(query)])
  }

  /**
   * When the table misses and both lookups come to nothing, whether they
   * raise, reply with another status, send no JSON or send a page with
   * nothing to quote, the answer is the fallback.
   */
  lemma AllLookupsFail(query: string, wiki: Reply<WikiPage>, duck: Reply<DuckPage>)
    requires KnowledgeAnswer(query).None?
    requires wiki.Raised? || wiki.status != 200 || wiki.body.None? || wiki.body.value.extract.None?
    requires duck.Raised? || duck.status != 200 || duck.body.None?
             || (duck.body.value.abstractText == "" && RelatedSummary(duck.body.value.relatedTopics).None?)
    ensures Search(query, wiki, duck).answer == NoInformation(query)
  {
  }

  /** `search_web`: the table scan first, then the two lookups in turn. */
  method SearchWeb(query: string, wiki: Reply<WikiPage>, duck: Reply<DuckPage>) returns (r: SearchOutcome)
    ensures r == Search(query, wiki, duck)
  {
    var known := ScanKnowledge(query);
    if known.Some? {
      return SearchOutcome(known.value, []);
    }
    var requests := [WikipediaSummary(Underscored(query))];
    if wiki.Raised? {
      return SearchOutcome(NoInformation(query), requests);
    }
    if wiki.status == 200 {
      if wiki.body.None? {
        return SearchOutcome(NoInformation(query), requests);
      }
      if wiki.body.value.extract.Some? {
        return SearchOutcome(ResultLine(wiki.body.value.extract.value), requests);
      }
    }
    requests := requests + [DuckDuckGoAnswer(query)];
    if duck.Raised? || duck.status != 200 || duck.body.None? {
      return SearchOutcome(NoInformation(query), requests);
    }
    var page := duck.body.value;
    if page.abstractText != "" {
      return SearchOutcome(ResultLine(page.abstractText), requests);
    }
    var results := CollectTopicTexts(page.relatedTopics);
    if results != [] {
      return SearchOutcome("Search results:\n- " + Join(results, "\n- "), requests);
    }
    return SearchOutcome(NoInformation(query), requests);
  }

  /** "Taj Mahal" is answered from the table, whatever the two lookups would have returned, with no request sent. */
  lemma TajMahalSendsNoRequest(wiki: Reply<WikiPage>, duck: Reply<DuckPage>)
    ensures Search("Taj Mahal", wiki, duck) == SearchOutcome(ResultLine(StoredText(3)), [])
  {
    TajMahalFromTable();
  }
}
