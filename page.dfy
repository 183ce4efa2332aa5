/**
 * A page on which several players publish their markup, one call after
 * another: addVideoObjectMarkup and addClipMarkup gate chapters on the
 * entries already present so that one video in the page at most carries
 * them.
 */
module Page {
  import opened Wrappers
  import opened JsonValue
  import opened Microdata
  import opened VideoObjectMarkup
  import opened ClipMarkup

  /** One call of either markup function, with its player and the page location at that time. */
  datatype Call =
    | VideoObjectCall(player: PlayerArg, loc: Location)
    | ClipCall(player: PlayerArg, loc: Location, copy: Copy)

  /** The ld+json scripts after one call. */
  function Step(scripts: seq<ScriptText>, call: Call): seq<ScriptText> {
    match call
    case VideoObjectCall(player, loc) => VideoObjectPage(scripts, player, loc)
    case ClipCall(player, loc, copy) => ClipPage(scripts, player, loc, copy)
  }

  /** The ld+json scripts after the calls, in order. */
  function Run(scripts: seq<ScriptText>, calls: seq<Call>): seq<ScriptText>
    decreases |calls|
  {
    if |calls| == 0 then scripts else Run(Step(scripts, calls[0]), calls[1..])
  }

  /** How many entries carry chapters in one ld+json script: a list counts each of its entries, a single value itself. */
  function ScriptChaptered(t: ScriptText): nat {
    match t
    case Malformed => 0
    case Parsed(v) => if v.JArr? then ChapteredCount(v.items) else if IsChaptered(v) then 1 else 0
  }

  /** How many entries carry chapters across all the ld+json scripts of the page. */
  function ChapteredOnPage(scripts: seq<ScriptText>): nat {
    if scripts == [] then 0 else ScriptChaptered(scripts[0]) + ChapteredOnPage(scripts[1..])
  }

  /** A call writes into the first script, or adds one to a page that has none. */
  lemma StepScriptCount(scripts: seq<ScriptText>, call: Call)
    ensures |scripts| > 0 ==> |Step(scripts, call)| == |scripts|
    ensures |scripts| == 0 ==> |Step(scripts, call)| <= 1
  {
  }

  /** Calls run one after another never give a page with at most one script a second one. */
  lemma {:induction false} RunScriptCount(scripts: seq<ScriptText>, calls: seq<Call>)
    requires |scripts| <= 1
    ensures |Run(scripts, calls)| <= 1
    decreases |calls|
  {
    if |calls| > 0 {
      StepScriptCount(scripts, calls[0]);
      RunScriptCount(Step(scripts, calls[0]), calls[1..]);
    }
  }

  /** Whatever calls a page sees, a list with chapters on one entry at most stays so. */
  lemma {:induction false} RunKeepsOneChaptered(scripts: seq<ScriptText>, calls: seq<Call>)
    requires OneChapteredList(scripts)
    ensures OneChapteredList(Run(scripts, calls))
    decreases |calls|
  {
    if |calls| > 0 {
      match calls[0] {
        case VideoObjectCall(player, loc) => VideoObjectKeepsOneChaptered(scripts, player, loc);
        case ClipCall(player, loc, copy) => ClipKeepsOneChaptered(scripts, player, loc, copy);
      }
      RunKeepsOneChaptered(Step(scripts, calls[0]), calls[1..]);
    }
  }

  /**
   * On a page that starts without ld+json, no sequence of calls run one
   * after another puts chapters on two entries: the page keeps one
   * script at most, and its list carries chapters once at most.
   */
  lemma BarePageKeepsOneChaptered(calls: seq<Call>)
    ensures |Run([], calls)| <= 1
    ensures OneChapteredList(Run([], calls))
    ensures ChapteredOnPage(Run([], calls)) <= 1
  {
    var r := Run([], calls);
    RunScriptCount([], calls);
    RunKeepsOneChaptered([], calls);
    if |r| == 1 {
      assert r[1..] == [];
    }
  }

  /**
   * Two addClipMarkup calls on a page without ld+json whose metadata both
   * arrive after both have read the page: each found no script element,
   * so each callback appends a script of its own, and both entries carry
   * chapters.
   */
  lemma InterleavedClipsChapterTwice(meta1: Metadata, meta2: Metadata, loc: Location, copy: Copy)
    requires ChapterGate(meta1.chapters, meta1.duration, false) && EntryDescription(meta1, copy).Success?
    requires ChapterGate(meta2.chapters, meta2.duration, false) && EntryDescription(meta2, copy).Success?
    ensures ReadExistingStrict([]) == Success(([], false))
    ensures var page := ClipCallback(ClipCallback([], meta1, false, [], false, loc, copy), meta2, false, [], false, loc, copy);
      |page| == 2 && ChapteredOnPage(page) == 2
  {
    var t1 := Parsed(JArr([EntryToJson(ClipEntry(meta1, copy, false, loc).value)]));
    var t2 := Parsed(JArr([EntryToJson(ClipEntry(meta2, copy, false, loc).value)]));
    var first := ClipCallback([], meta1, false, [], false, loc, copy);
    assert first == [] + [t1];
    var page := ClipCallback(first, meta2, false, [], false, loc, copy);
    assert page == first + [t2];
    ChapteredOnPageAppend([], t1);
    ChapteredOnPageAppend(first, t2);
    ChapteredEntryScript(ClipEntry(meta1, copy, false, loc).value);
    ChapteredEntryScript(ClipEntry(meta2, copy, false, loc).value);
  }

  /** A script holding one entry with clips carries chapters once. */
  lemma ChapteredEntryScript(e: VideoObject)
    requires e.hasPart.Some?
    ensures ScriptChaptered(Parsed(JArr([EntryToJson(e)]))) == 1
  {
    assert [EntryToJson(e)][1..] == [];
  }

  /** An appended script adds its own chaptered entries to the page's. */
  lemma {:induction false} ChapteredOnPageAppend(scripts: seq<ScriptText>, t: ScriptText)
    ensures ChapteredOnPage(scripts + [t]) == ChapteredOnPage(scripts) + ScriptChaptered(t)
    decreases |scripts|
  {
    if scripts == [] {
      assert ([] + [t])[1..] == [];
    } else {
      assert (scripts + [t])[1..] == scripts[1..] + [t];
      ChapteredOnPageAppend(scripts[1..], t);
    }
  }
}
