/**
 * The tool list `create_sample_tools` hands to the agent (agent.py), and the
 * one tool whose whole body is modelled here on its own, `text_length`.
 * The other tools' bodies live in WebSearch and DateTimeTool, or are not
 * part of this model (Calculator, Weather).
 */
module Tools {
  import opened Wrappers
  import opened Text

  /** The five tools, a closed set. */
  datatype ToolKind = Calculator | TextLength | DateTime | Weather | WebSearch

  /** The tools in the order the list is built. */
  const Registry: seq<ToolKind> := [Calculator, TextLength, DateTime, Weather, WebSearch]

  /** The name each tool is registered under, which the agent uses to call it. */
  function Name(k: ToolKind): string {
    match k
    case Calculator => "Calculator"
    case TextLength => "TextLength"
    case DateTime => "DateTime"
    case Weather => "Weather"
    case WebSearch => "WebSearch"
  }

  /** The description the agent is shown for each tool. */
  function Description(k: ToolKind): string {
    match k
    case Calculator => "Useful for mathematical calculations. Input should be a valid mathematical expression."
    case TextLength => "Count the number of characters in a given text."
    case DateTime => "Get current date and time. Optionally specify a timezone like 'UTC', 'EST', etc."
    case Weather => "Get current weather for a location. Input should be a city name or location."
    case WebSearch => "Search the web for information. Input should be a search query."
  }

  /** The first tool in `tools` registered under exactly `name`. */
  function Find(tools: seq<ToolKind>, name: string): (r: Option<ToolKind>)
    ensures r.Some? ==> r.value in tools && Name(r.value) == name
    ensures r.None? <==> forall k :: k in tools ==> Name(k) != name
  {
    if tools == [] then None
    else if Name(tools[0]) == name then Some(tools[0])
    else Find(tools[1..], name)
  }

  /** The tool registered under exactly `name`, if any: a name is found exactly when it is one of the five names, spelled with the same case. */
  function Lookup(name: string): (r: Option<ToolKind>)
    ensures r.Some? ==> Name(r.value) == name
    ensures r.None? <==> forall k: ToolKind :: Name(k) != name
  {
    RegistryComplete();
    Find(Registry, name)
  }

  /** Every tool is registered, once. */
  lemma RegistryComplete()
    ensures |Registry| == 5
    ensures forall k: ToolKind :: k in Registry
    ensures forall i, j :: 0 <= i < j < |Registry| ==> Registry[i] != Registry[j]
  {
    forall k: ToolKind
      ensures k in Registry
    {
      var i := match k
        case Calculator => 0
        case TextLength => 1
        case DateTime => 2
        case Weather => 3
        case WebSearch => 4;
      assert Registry[i] == k;
    }
  }

  /** No two tools share a name. */
  lemma NamesDistinct(a: ToolKind, b: ToolKind)
    requires a != b
    ensures Name(a) != Name(b)
  {
    assert Name(a)[0] != Name(b)[0] || |Name(a)| != |Name(b)|;
  }

  /** Looking a tool up by its own name finds that tool. */
  lemma LookupByName(k: ToolKind)
    ensures Lookup(Name(k)) == Some(k)
  {
    RegistryComplete();
    var r := Lookup(Name(k));
    if r != Some(k) {
      assert r.Some?;
      NamesDistinct(r.value, k);
    }
  }

  /** Names are matched exactly: a differently cased name is not found. */
  lemma LookupIsCaseSensitive()
    ensures Lookup("websearch").None?
  {
    forall k: ToolKind
      ensures Name(k) != "websearch"
    {
      assert Name(k)[0] != "websearch"[0];
    }
  }

  /** `text_length(text)`: the character count, written in decimal. */
  function TextLengthReport(text: string): (r: string)
    ensures IsPrefix("Text length: ", r)
  {
    "Text length: " + Decimal(|text|) + " characters"
  }

  /** The count a `text_length` report carries, read back from its digits. */
  function ReportedCount(report: string): Option<nat> {
    var head := "Text length: ";
    var tail := " characters";
    if |report| > |head| + |tail| && report[..|head|] == head && report[|report| - |tail|..] == tail then
      var digits := report[|head|..|report| - |tail|];
      if AllDigits(digits) then Some(DigitsValue(digits)) else None
    else None
  }

  /** The report carries exactly the number of characters in the text. */
  lemma TextLengthReadsBack(text: string)
    ensures ReportedCount(TextLengthReport(text)) == Some(|text|)
  {
    var d := Decimal(|text|);
    var r := TextLengthReport(text);
    assert r[..13] == "Text length: ";
    assert r[|r| - 11..] == " characters";
    assert r[13..|r| - 11] == d;
    DecimalRoundTrip(|text|);
  }

  /** Texts of different lengths get different reports. */
  lemma TextLengthDistinguishes(a: string, b: string)
    requires |a| != |b|
    ensures TextLengthReport(a) != TextLengthReport(b)
  {
    TextLengthReadsBack(a);
    TextLengthReadsBack(b);
  }
}
