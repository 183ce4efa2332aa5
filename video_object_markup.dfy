/**
 * addVideoObjectMarkup (src/lib/addVideoObjectMarkup.js): once the player
 * reports its video-object metadata, add a schema.org VideoObject entry to
 * the page's JSON-LD, after the entries already there.
 */
module VideoObjectMarkup {
  import opened Wrappers
  import opened JsString
  import opened JsonValue
  import opened Microdata
  import opened Dom

  /**
   * The entries of the first ld+json script and whether one of them has
   * chapters. Whatever throws while reading them is caught: unparsable
   * text leaves no entries, and a list whose hasPart probe throws counts
   * as having no chapters.
   */
  function ReadExisting(scripts: seq<ScriptText>): (r: (seq<Slot>, bool))
    ensures r.1 ==> ChapteredCount(Serialize(r.0)) > 0
    ensures |scripts| == 0 || scripts[0].Malformed? ==> r == ([], false)
    ensures |scripts| > 0 && scripts[0].Parsed? && WrapParsed(scripts[0].value).Failure? ==> r == ([], false)
    ensures |scripts| > 0 && scripts[0].Parsed? && WrapParsed(scripts[0].value).Success? ==>
      r.0 == WrapParsed(scripts[0].value).value
    ensures SomeHasPart(r.0).Success? ==> (r.1 <==> ChapteredCount(Serialize(r.0)) > 0)
    ensures SomeHasPart(r.0).Failure? ==> !r.1
  {
    if |scripts| == 0 then ([], false)
    else match scripts[0]
      case Malformed => ([], false)
      case Parsed(v) =>
        match WrapParsed(v)
        case Failure(_) => ([], false)
        case Success(slots) =>
          match SomeHasPart(slots)
          case Failure(_) => (slots, false)
          case Success(found) =>
            SomeHasPartCounts(slots);
            (slots, found)
  }

  /**
   * The entry for the reported metadata: its name is the title, its
   * duration the ISO 8601 form of the length, the other fields are copied,
   * and it carries the chapter clips exactly when the gate lets them through.
   */
  function VideoObjectEntry(meta: Metadata, existingHasChapters: bool, loc: Location): (e: VideoObject)
    ensures e.name == meta.title && e.description == meta.description
    ensures e.uploadDate == meta.uploadDate && e.embedUrl == meta.embedUrl && e.thumbnailUrl == meta.thumbnailUrl
    ensures ParseIsoSeconds(e.duration) == if meta.duration >= 0 then Some(meta.duration) else None
    ensures e.hasPart.Some? <==> ChapterGate(meta.chapters, meta.duration, existingHasChapters)
    ensures e.hasPart.Some? ==> e.hasPart.value == ChapterClips(meta.chapters, meta.duration, loc)
  {
    IsoDurationRoundTrip(meta.duration);
    var microdata := VideoObject(meta.title, IsoDuration(meta.duration), meta.description,
                                 meta.uploadDate, meta.embedUrl, meta.thumbnailUrl, None);
    AttachChapters(microdata, meta, existingHasChapters, loc)
  }

  /** The ld+json scripts of the page after addVideoObjectMarkup(player) has run its course. */
  function VideoObjectPage(scripts: seq<ScriptText>, player: PlayerArg, loc: Location): seq<ScriptText> {
    match Delivered(player)
    case None => scripts
    case Some(meta) =>
      var (existing, hasChapters) := ReadExisting(scripts);
      Publish(scripts, existing, EntryToJson(VideoObjectEntry(meta, hasChapters, loc)))
  }

  /**
   * addVideoObjectMarkup, with the page location standing for
   * window.location and the metadata promise already settled.
   */
  method AddVideoObjectMarkup(doc: Document, player: PlayerArg, loc: Location)
    modifies doc
    ensures doc.ldJsonScripts == VideoObjectPage(old(doc.ldJsonScripts), player, loc)
  {
    if player.NoPlayer? {
      return;
    }
    // a rejected request ends in .catch(() => {}); falsy data returns
    if player.metadata.Rejected? || player.metadata.data.None? {
      return;
    }
    var data := player.metadata.data.value;
    var existingMicrodata: seq<Slot> := [];
    var existingMicrodataHasChapters := false;
    if |doc.ldJsonScripts| > 0 {
      match doc.ldJsonScripts[0]
      case Malformed =>
        // JSON.parse threw; the catch only warns
      case Parsed(v) =>
        var wrapped := WrapParsed(v);
        if wrapped.Success? {
          existingMicrodata := wrapped.value;
          // when the probe throws, the flag keeps its falsy initial value
          existingMicrodataHasChapters := SomeHasPart(existingMicrodata) == Success(true);
        }
    }
    var microdata := VideoObject(data.title, IsoDuration(data.duration), data.description,
                                 data.uploadDate, data.embedUrl, data.thumbnailUrl, None);
    if ChapterGate(data.chapters, data.duration, existingMicrodataHasChapters) {
      microdata := microdata.(hasPart := Some(ChapterClips(data.chapters, data.duration, loc)));
    }
    if |doc.ldJsonScripts| > 0 {
      doc.ldJsonScripts := doc.ldJsonScripts[0 := Parsed(JArr(Serialize(existingMicrodata) + [EntryToJson(microdata)]))];
    } else {
      doc.ldJsonScripts := doc.ldJsonScripts + [Parsed(JArr([EntryToJson(microdata)]))];
    }
  }

  /** Without a player, or when its metadata request fails or yields nothing, the page is untouched. */
  lemma VideoObjectNeedsPlayerAndData(scripts: seq<ScriptText>, player: PlayerArg, loc: Location)
    requires player.NoPlayer? || player.metadata.Rejected? || player.metadata == Resolved(None)
    ensures VideoObjectPage(scripts, player, loc) == scripts
  {
  }

  /** On a page without ld+json, a new script holds just the entry, chaptered by the gate alone. */
  lemma VideoObjectOnBarePage(player: PlayerArg, loc: Location, meta: Metadata)
    requires Delivered(player) == Some(meta)
    ensures VideoObjectPage([], player, loc) == [Parsed(JArr([EntryToJson(VideoObjectEntry(meta, false, loc))]))]
  {
  }

  /**
   * An existing list keeps every entry, unchanged and in order, and gains
   * the new one at its end; the other scripts are not touched.
   */
  lemma VideoObjectAppendsToList(scripts: seq<ScriptText>, player: PlayerArg, loc: Location, meta: Metadata)
    requires Delivered(player) == Some(meta)
    requires |scripts| > 0 && scripts[0].Parsed? && scripts[0].value.JArr?
    ensures var items := scripts[0].value.items;
      var found := SomeHasPart(WrapParsed(scripts[0].value).value) == Success(true);
      var r := VideoObjectPage(scripts, player, loc);
      |r| == |scripts| && r[1..] == scripts[1..] &&
      r[0] == Parsed(JArr(items + [EntryToJson(VideoObjectEntry(meta, found, loc))]))
  {
    SerializeWrappedArray(scripts[0].value.items);
  }

  /** A single non-array, non-number value is kept as the first element of the new list. */
  lemma VideoObjectWrapsValue(scripts: seq<ScriptText>, player: PlayerArg, loc: Location, meta: Metadata)
    requires Delivered(player) == Some(meta)
    requires |scripts| > 0 && scripts[0].Parsed? && !scripts[0].value.JArr? && !scripts[0].value.JNum?
    ensures var v := scripts[0].value;
      VideoObjectPage(scripts, player, loc)[0] ==
        Parsed(JArr([v, EntryToJson(VideoObjectEntry(meta, IsChaptered(v) && !Throws(v), loc))]))
  {
    var v := scripts[0].value;
    assert Serialize([Item(v)]) == [v];
    assert SomeHasPart([Item(v)]) == if Decides(Item(v)) then OwnsHasPart(v) else Success(false) by {
      assert [Item(v)][1..] == [];
    }
    assert (OwnsHasPart(v) == Success(true)) == (IsChaptered(v) && !Throws(v));
    var found := SomeHasPart([Item(v)]) == Success(true);
    assert found == (IsChaptered(v) && !Throws(v));
    assert WrapParsed(v) == Success([Item(v)]);
    assert ReadExisting(scripts) == ([Item(v)], found);
    assert Serialize([Item(v)]) + [EntryToJson(VideoObjectEntry(meta, found, loc))] ==
      [v, EntryToJson(VideoObjectEntry(meta, found, loc))];
  }

  /** Unparsable text is overwritten with a list holding just the entry. */
  lemma VideoObjectReplacesMalformed(scripts: seq<ScriptText>, player: PlayerArg, loc: Location, meta: Metadata)
    requires Delivered(player) == Some(meta)
    requires |scripts| > 0 && scripts[0].Malformed?
    ensures VideoObjectPage(scripts, player, loc) ==
      scripts[0 := Parsed(JArr([EntryToJson(VideoObjectEntry(meta, false, loc))]))]
  {
    var entry := EntryToJson(VideoObjectEntry(meta, false, loc));
    assert Serialize([]) + [entry] == [entry];
  }

  /** On a page whose list the probe can read, chapters stay on one entry at most. */
  lemma VideoObjectKeepsOneChaptered(scripts: seq<ScriptText>, player: PlayerArg, loc: Location)
    requires OneChapteredList(scripts)
    ensures OneChapteredList(VideoObjectPage(scripts, player, loc))
  {
    if Delivered(player).Some? {
      var meta := Delivered(player).value;
      var (existing, hasChapters) := ReadExisting(scripts);
      var entry := VideoObjectEntry(meta, hasChapters, loc);
      if |scripts| > 0 {
        var items := scripts[0].value.items;
        SerializeWrappedArray(items);
        var slots := WrapParsed(scripts[0].value).value;
        SomeHasPartWithoutThrowers(slots);
        SomeHasPartCounts(slots);
      }
      PublishKeepsOneChaptered(scripts, existing, EntryToJson(entry));
    }
  }

  /**
   * As written, a null ahead of a chaptered entry makes the probe throw;
   * the throw is caught, the flag stays falsy, and a second chaptered
   * entry is added.
   */
  lemma VideoObjectChaptersTwiceAfterNull(player: PlayerArg, loc: Location, meta: Metadata)
    requires Delivered(player) == Some(meta)
    requires |meta.chapters| > 0 && meta.duration > MinDuration
    ensures var chaptered := JObj([("hasPart", JArr([]))]);
      var r := VideoObjectPage([Parsed(JArr([JNull, chaptered]))], player, loc);
      r[0].Parsed? && r[0].value.JArr? && ChapteredCount(r[0].value.items) == 2
  {
    var chaptered := JObj([("hasPart", JArr([]))]);
    var items := [JNull, chaptered];
    var scripts := [Parsed(JArr(items))];
    SerializeWrappedArray(items);
    var slots := WrapParsed(JArr(items)).value;
    assert slots[0] == Item(JNull) && Decides(slots[0]);
    assert FirstDecisive(slots) == 0;
    assert SomeHasPart(slots) == Failure(TypeError);
    assert ReadExisting(scripts) == (slots, false);
    var e := VideoObjectEntry(meta, false, loc);
    assert e.hasPart.Some?;
    var entry := EntryToJson(e);
    assert IsChaptered(entry);
    var r := VideoObjectPage(scripts, player, loc);
    assert r == Publish(scripts, slots, entry);
    assert r[0] == Parsed(JArr(items + [entry]));
    assert IsChaptered(chaptered) by {
      assert chaptered.members[0].0 == "hasPart";
    }
    ChapteredCountAppend(items, [entry]);
    assert ChapteredCount([entry]) == 1 by {
      assert [entry][1..] == [];
    }
    assert ChapteredCount(items) == 1 by {
      assert items[1..] == [chaptered] && items[1..][1..] == [];
    }
  }
}
