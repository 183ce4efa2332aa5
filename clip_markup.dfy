/**
 * addClipMarkup, in its two copies: src/lib/addClipMarkup.js and
 * src/lib/functions.js:96-191. Both read the page's JSON-LD before asking
 * the player for metadata, without catching what that read throws, and
 * derive the thumbnail and a default description from the metadata. They
 * differ only in the default description.
 */
module ClipMarkup {
  import opened Wrappers
  import opened JsString
  import opened JsonValue
  import opened Microdata
  import opened Dom
  import VideoObjectMarkup

  /** The copy of addClipMarkup: the one in addClipMarkup.js or the one in functions.js. */
  datatype Copy = ClipModule | FunctionsModule

  /** The description used when the video's own is blank. */
  function FallbackDescription(title: string, author: string): string {
    "This is \"" + title + "\" by " + author +
    " on Vimeo, the home for high quality videos and the people who love them."
  }

  /**
   * The description in addClipMarkup.js as written: its fallback names
   * `title`, which that function never binds (it binds the title as
   * `name`), so a blank description raises a ReferenceError.
   */
  function ClipDescriptionAsWritten(meta: Metadata): (r: Result<string, JsError>)
    ensures r.Success? <==> !IsBlank(meta.description)
    ensures r.Success? ==> r.value == meta.description
    ensures r.Failure? ==> r.error == ReferenceError
  {
    if !IsBlank(meta.description) then Success(meta.description) else Failure(ReferenceError)
  }

  /**
   * The description in functions.js, which binds `title`: the video's
   * own when it is not blank, the fallback sentence otherwise. Either way
   * the entry gets a description that is not blank.
   */
  function ClipDescription(meta: Metadata): (d: string)
    ensures !IsBlank(d)
    ensures !IsBlank(meta.description) ==> d == meta.description
    ensures IsBlank(meta.description) ==> d == FallbackDescription(meta.title, meta.author)
  {
    if !IsBlank(meta.description) then meta.description
    else
      var d := FallbackDescription(meta.title, meta.author);
      NonSpaceHeadNotBlank(d);
      d
  }

  function EntryDescription(meta: Metadata, copy: Copy): Result<string, JsError> {
    match copy
    case ClipModule => ClipDescriptionAsWritten(meta)
    case FunctionsModule => Success(ClipDescription(meta))
  }

  /** The 640-pixel thumbnail when the video has a thumbnail base URL, the default portrait otherwise. */
  function ClipThumbnail(meta: Metadata): string {
    if meta.thumbsBaseUrl != "" then meta.thumbsBaseUrl + "_640" else DefaultThumbnail
  }

  /**
   * The entry, or the error its construction raises inside the metadata
   * callback (only a blank description in addClipMarkup.js does).
   */
  function ClipEntry(meta: Metadata, copy: Copy, existingHasChapters: bool, loc: Location): (r: Result<VideoObject, JsError>)
    ensures r.Success? <==> EntryDescription(meta, copy).Success?
    ensures r.Success? ==> r.value.name == meta.title && r.value.description == EntryDescription(meta, copy).value
    ensures r.Success? ==> r.value.thumbnailUrl == ClipThumbnail(meta)
    ensures r.Success? ==> r.value.uploadDate == meta.uploadDate && r.value.embedUrl == meta.embedUrl
    ensures r.Success? ==> ParseIsoSeconds(r.value.duration) == if meta.duration >= 0 then Some(meta.duration) else None
    ensures r.Success? ==> (r.value.hasPart.Some? <==> ChapterGate(meta.chapters, meta.duration, existingHasChapters))
    ensures r.Success? && r.value.hasPart.Some? ==> r.value.hasPart.value == ChapterClips(meta.chapters, meta.duration, loc)
  {
    match EntryDescription(meta, copy)
    case Failure(e) => Failure(e)
    case Success(description) =>
      IsoDurationRoundTrip(meta.duration);
      var microdata := VideoObject(meta.title, IsoDuration(meta.duration), description,
                                   meta.uploadDate, meta.embedUrl, ClipThumbnail(meta), None);
      Success(AttachChapters(microdata, meta, existingHasChapters, loc))
  }

  /**
   * The entries of the first ld+json script and whether one has chapters,
   * read with nothing caught: unparsable text is a SyntaxError, a number
   * that is not an array length a RangeError, and a throwing hasPart probe
   * a TypeError. When nothing throws, it reads what the tolerant reader of
   * addVideoObjectMarkup reads.
   */
  function ReadExistingStrict(scripts: seq<ScriptText>): (r: Result<(seq<Slot>, bool), JsError>)
    ensures |scripts| == 0 ==> r == Success(([], false))
    ensures |scripts| > 0 && scripts[0].Malformed? ==> r == Failure(SyntaxError)
    ensures |scripts| > 0 && scripts[0].Parsed? && WrapParsed(scripts[0].value).Failure? ==> r == Failure(RangeError)
    ensures |scripts| > 0 && scripts[0].Parsed? && WrapParsed(scripts[0].value).Success? ==>
      (r.Success? <==> SomeHasPart(WrapParsed(scripts[0].value).value).Success?)
    ensures |scripts| > 0 && scripts[0].Parsed? && WrapParsed(scripts[0].value).Success? ==>
      (SomeHasPart(WrapParsed(scripts[0].value).value).Failure? ==> r == Failure(TypeError))
    ensures OneChapteredList(scripts) ==> r.Success?
    ensures r.Success? ==> r.value == VideoObjectMarkup.ReadExisting(scripts)
    ensures r.Success? ==> (r.value.1 <==> ChapteredCount(Serialize(r.value.0)) > 0)
  {
    if |scripts| == 0 then Success(([], false))
    else
      OneChapteredReadsCleanly(scripts);
      match scripts[0]
      case Malformed => Failure(SyntaxError)
      case Parsed(temp) =>
        match WrapParsed(temp)
        case Failure(e) => Failure(e)
        case Success(slots) =>
          match SomeHasPart(slots)
          case Failure(e) => Failure(e)
          case Success(found) =>
            SomeHasPartCounts(slots);
            Success((slots, found))
  }

  /** A list the hasPart probe reads without throwing is read without an exception. */
  lemma OneChapteredReadsCleanly(scripts: seq<ScriptText>)
    ensures OneChapteredList(scripts) && |scripts| > 0 ==>
      WrapParsed(scripts[0].value).Success? && SomeHasPart(WrapParsed(scripts[0].value).value).Success?
  {
    if OneChapteredList(scripts) && |scripts| > 0 {
      var items := scripts[0].value.items;
      var slots := WrapParsed(scripts[0].value).value;
      forall i | 0 <= i < |slots| ensures !Throws(SlotValue(slots[i])) || slots[i] == Hole {
        assert slots[i] == Item(items[i]);
      }
      SomeHasPartWithoutThrowers(slots);
    }
  }

  /** What addClipMarkup(player) throws to its caller. */
  function ClipThrown(scripts: seq<ScriptText>, player: PlayerArg): Option<JsError> {
    if player.NoPlayer? then None
    else match ReadExistingStrict(scripts)
      case Failure(e) => Some(e)
      case Success(_) => None
  }

  /** The ld+json scripts of the page after addClipMarkup(player) has run its course. */
  function ClipPage(scripts: seq<ScriptText>, player: PlayerArg, loc: Location, copy: Copy): seq<ScriptText> {
    if player.NoPlayer? then scripts
    else match ReadExistingStrict(scripts)
      case Failure(_) => scripts
      case Success((existing, hasChapters)) =>
        match Delivered(player)
        case None => scripts
        case Some(meta) =>
          ClipCallback(scripts, meta, |scripts| > 0, existing, hasChapters, loc, copy)
  }

  /**
   * The ld+json scripts after the metadata callback of addClipMarkup,
   * given whether it found a script element when it read the page and
   * what it read there.
   */
  function ClipCallback(scripts: seq<ScriptText>, meta: Metadata, hadScript: bool, existing: seq<Slot>,
                        hasChapters: bool, loc: Location, copy: Copy): (r: seq<ScriptText>)
    requires hadScript ==> |scripts| > 0
    ensures ClipEntry(meta, copy, hasChapters, loc).Failure? ==> r == scripts
    ensures ClipEntry(meta, copy, hasChapters, loc).Success? && hadScript ==>
      |r| == |scripts| && r[1..] == scripts[1..] &&
      r[0] == Parsed(JArr(Serialize(existing) + [EntryToJson(ClipEntry(meta, copy, hasChapters, loc).value)]))
    ensures ClipEntry(meta, copy, hasChapters, loc).Success? && !hadScript ==>
      r == scripts + [Parsed(JArr([EntryToJson(ClipEntry(meta, copy, hasChapters, loc).value)]))]
  {
    match ClipEntry(meta, copy, hasChapters, loc)
    case Failure(_) => scripts   // thrown inside the callback; .catch logs it
    case Success(entry) => WriteBack(scripts, hadScript, existing, EntryToJson(entry))
  }

  /**
   * addClipMarkup, with the page location standing for window.location and
   * the metadata promise already settled; `thrown` is what escapes to the
   * caller before the promise is set up.
   */
  method AddClipMarkup(doc: Document, player: PlayerArg, loc: Location, copy: Copy) returns (thrown: Option<JsError>)
    modifies doc
    ensures thrown == ClipThrown(old(doc.ldJsonScripts), player)
    ensures doc.ldJsonScripts == ClipPage(old(doc.ldJsonScripts), player, loc, copy)
  {
    thrown := None;
    if player.NoPlayer? {
      return;
    }
    ghost var scripts := doc.ldJsonScripts;
    var existingMicrodata: seq<Slot> := [];
    var existingMicrodataHasChapters := false;
    // document.querySelector("script[type='application/ld+json']")
    var scriptElem := |doc.ldJsonScripts| > 0;
    if scriptElem {
      match doc.ldJsonScripts[0]
      case Malformed =>
        thrown := Some(SyntaxError);
        return;
      case Parsed(temp) =>
        var wrapped := WrapParsed(temp);
        if wrapped.Failure? {
          thrown := Some(wrapped.error);
          return;
        }
        existingMicrodata := wrapped.value;
        var probe := SomeHasPart(existingMicrodata);
        if probe.Failure? {
          thrown := Some(probe.error);
          return;
        }
        existingMicrodataHasChapters := probe.value;
    }
    assert ReadExistingStrict(scripts) == Success((existingMicrodata, existingMicrodataHasChapters));
    // player.getVideoObjectMetadata().then(...).catch(...)
    if player.metadata.Rejected? || player.metadata.data.None? {
      return;
    }
    OnMetadata(doc, player.metadata.data.value, scriptElem, existingMicrodata, existingMicrodataHasChapters, loc, copy);
  }

  /**
   * The metadata callback of addClipMarkup: builds the entry from the
   * delivered metadata and the entries read before the request, and
   * writes the list back into the script element found then, or into a
   * new one; an error it raises leaves the page as it was.
   */
  method OnMetadata(doc: Document, data: Metadata, hadScript: bool, existingMicrodata: seq<Slot>,
                    existingMicrodataHasChapters: bool, loc: Location, copy: Copy)
    requires hadScript ==> |doc.ldJsonScripts| > 0
    modifies doc
    ensures doc.ldJsonScripts ==
      ClipCallback(old(doc.ldJsonScripts), data, hadScript, existingMicrodata, existingMicrodataHasChapters, loc, copy)
  {
    var description: string;
    if !IsBlank(data.description) {
      description := data.description;
    } else if copy == ClipModule {
      // ReferenceError: title is not defined; logged by .catch
      return;
    } else {
      description := FallbackDescription(data.title, data.author);
    }
    assert EntryDescription(data, copy) == Success(description);
    var thumbnailUrl := if data.thumbsBaseUrl != "" then data.thumbsBaseUrl + "_640" else DefaultThumbnail;
    var microdata := VideoObject(data.title, IsoDuration(data.duration), description,
                                 data.uploadDate, data.embedUrl, thumbnailUrl, None);
    if ChapterGate(data.chapters, data.duration, existingMicrodataHasChapters) {
      microdata := microdata.(hasPart := Some(ChapterClips(data.chapters, data.duration, loc)));
    }
    assert ClipEntry(data, copy, existingMicrodataHasChapters, loc) == Success(microdata);
    ghost var before := doc.ldJsonScripts;
    assert ClipCallback(before, data, hadScript, existingMicrodata, existingMicrodataHasChapters, loc, copy) ==
      WriteBack(before, hadScript, existingMicrodata, EntryToJson(microdata));
    if hadScript {
      doc.ldJsonScripts := doc.ldJsonScripts[0 := Parsed(JArr(Serialize(existingMicrodata) + [EntryToJson(microdata)]))];
    } else {
      doc.ldJsonScripts := doc.ldJsonScripts + [Parsed(JArr([EntryToJson(microdata)]))];
    }
  }

  /** Without a player nothing is read, thrown or written. */
  lemma ClipNeedsPlayer(scripts: seq<ScriptText>, loc: Location, copy: Copy)
    ensures ClipThrown(scripts, NoPlayer) == None
    ensures ClipPage(scripts, NoPlayer, loc, copy) == scripts
  {
  }

  /** When the metadata request fails or yields nothing, the page is untouched. */
  lemma ClipNeedsData(scripts: seq<ScriptText>, player: PlayerArg, loc: Location, copy: Copy)
    requires player.Player? && (player.metadata.Rejected? || player.metadata == Resolved(None))
    ensures ClipPage(scripts, player, loc, copy) == scripts
  {
  }

  /** Unparsable existing text escapes as a SyntaxError and leaves the page as it was. */
  lemma ClipMalformedThrows(scripts: seq<ScriptText>, player: PlayerArg, loc: Location, copy: Copy)
    requires player.Player? && |scripts| > 0 && scripts[0].Malformed?
    ensures ClipThrown(scripts, player) == Some(SyntaxError)
    ensures ClipPage(scripts, player, loc, copy) == scripts
  {
  }

  /** As written, addClipMarkup.js leaves the page untouched for every video whose description is blank. */
  lemma ClipModuleSkipsBlankDescription(scripts: seq<ScriptText>, player: PlayerArg, loc: Location, meta: Metadata)
    requires Delivered(player) == Some(meta) && IsBlank(meta.description)
    ensures ClipPage(scripts, player, loc, ClipModule) == scripts
  {
  }

  /**
   * The functions.js copy writes an entry for such a video, with the
   * fallback description, whenever the existing entries can be read.
   */
  lemma FunctionsModuleDescribesBlankVideo(scripts: seq<ScriptText>, player: PlayerArg, loc: Location, meta: Metadata)
    requires Delivered(player) == Some(meta) && IsBlank(meta.description)
    requires ReadExistingStrict(scripts).Success?
    ensures var (existing, hasChapters) := ReadExistingStrict(scripts).value;
      var entry := ClipEntry(meta, FunctionsModule, hasChapters, loc);
      entry.Success? && entry.value.description == FallbackDescription(meta.title, meta.author) &&
      ClipPage(scripts, player, loc, FunctionsModule) == Publish(scripts, existing, EntryToJson(entry.value))
  {
    FallbackEntry(meta, ReadExistingStrict(scripts).value.1, loc);
    ClipPageWrites(scripts, player, loc, FunctionsModule, meta);
  }

  /**
   * When the page reads without an exception and the entry builds, the
   * callback writes it back as a builder does that runs without pause.
   */
  lemma ClipPageWrites(scripts: seq<ScriptText>, player: PlayerArg, loc: Location, copy: Copy, meta: Metadata)
    requires Delivered(player) == Some(meta) && ReadExistingStrict(scripts).Success?
    requires ClipEntry(meta, copy, ReadExistingStrict(scripts).value.1, loc).Success?
    ensures ClipPage(scripts, player, loc, copy) ==
      Publish(scripts, ReadExistingStrict(scripts).value.0, EntryToJson(ClipEntry(meta, copy, ReadExistingStrict(scripts).value.1, loc).value))
  {
    var read := ReadExistingStrict(scripts);
    var (existing, hasChapters) := read.value;
    assert player.Player? && read == Success((existing, hasChapters));
    var json := EntryToJson(ClipEntry(meta, copy, hasChapters, loc).value);
    assert ClipPage(scripts, player, loc, copy) == ClipCallback(scripts, meta, |scripts| > 0, existing, hasChapters, loc, copy);
    assert ClipCallback(scripts, meta, |scripts| > 0, existing, hasChapters, loc, copy) == WriteBack(scripts, |scripts| > 0, existing, json);
  }

  /** The entry the functions.js copy builds for a video with a blank description. */
  lemma FallbackEntry(meta: Metadata, hasChapters: bool, loc: Location)
    requires IsBlank(meta.description)
    ensures var entry := ClipEntry(meta, FunctionsModule, hasChapters, loc);
      entry.Success? && entry.value.description == FallbackDescription(meta.title, meta.author)
  {
    var d := ClipDescription(meta);
    assert d == FallbackDescription(meta.title, meta.author);
    assert EntryDescription(meta, FunctionsModule) == Success(d);
  }

  /** For a video with a real description the two copies do the same. */
  lemma ClipCopiesAgree(scripts: seq<ScriptText>, player: PlayerArg, loc: Location)
    requires Delivered(player).Some? ==> !IsBlank(Delivered(player).value.description)
    ensures ClipPage(scripts, player, loc, ClipModule) == ClipPage(scripts, player, loc, FunctionsModule)
  {
  }

  /**
   * An existing list keeps every entry, unchanged and in order, and gains
   * the new one at its end; the other scripts are not touched.
   */
  lemma ClipAppendsToList(scripts: seq<ScriptText>, player: PlayerArg, loc: Location, copy: Copy, meta: Metadata)
    requires Delivered(player) == Some(meta) && EntryDescription(meta, copy).Success?
    requires |scripts| > 0 && scripts[0].Parsed? && scripts[0].value.JArr?
    requires ReadExistingStrict(scripts).Success?
    ensures var items := scripts[0].value.items;
      var entry := ClipEntry(meta, copy, ChapteredCount(items) > 0, loc).value;
      var r := ClipPage(scripts, player, loc, copy);
      |r| == |scripts| && r[1..] == scripts[1..] && r[0] == Parsed(JArr(items + [EntryToJson(entry)]))
  {
    var items := scripts[0].value.items;
    SerializeWrappedArray(items);
    var (existing, hasChapters) := ReadExistingStrict(scripts).value;
    assert Serialize(existing) == items;
    assert hasChapters == (ChapteredCount(items) > 0);
    ClipPageWrites(scripts, player, loc, copy, meta);
  }

  /** On a page without ld+json, a new script holds just the entry, chaptered by the gate alone. */
  lemma ClipOnBarePage(player: PlayerArg, loc: Location, copy: Copy, meta: Metadata)
    requires Delivered(player) == Some(meta) && EntryDescription(meta, copy).Success?
    ensures ClipThrown([], player) == None
    ensures ClipPage([], player, loc, copy) == [Parsed(JArr([EntryToJson(ClipEntry(meta, copy, false, loc).value)]))]
  {
  }

  /** An ld+json page with at most one chaptered entry keeps at most one, whatever the entries are. */
  lemma ClipKeepsAtMostOneChaptered(scripts: seq<ScriptText>, player: PlayerArg, loc: Location, copy: Copy)
    requires |scripts| > 0 && scripts[0].Parsed? && scripts[0].value.JArr?
    requires ChapteredCount(scripts[0].value.items) <= 1
    ensures var r := ClipPage(scripts, player, loc, copy);
      r[0].Parsed? && r[0].value.JArr? && ChapteredCount(r[0].value.items) <= 1
  {
    var r := ClipPage(scripts, player, loc, copy);
    if r != scripts {
      var items := scripts[0].value.items;
      SerializeWrappedArray(items);
      var (existing, hasChapters) := ReadExistingStrict(scripts).value;
      var entry := ClipEntry(Delivered(player).value, copy, hasChapters, loc).value;
      ChapteredCountAppend(items, [EntryToJson(entry)]);
      assert ChapteredCount([EntryToJson(entry)]) == if entry.hasPart.Some? then 1 else 0 by {
        assert [EntryToJson(entry)][1..] == [];
      }
    }
  }

  /** Like addVideoObjectMarkup, addClipMarkup keeps chapters on one entry at most. */
  lemma ClipKeepsOneChaptered(scripts: seq<ScriptText>, player: PlayerArg, loc: Location, copy: Copy)
    requires OneChapteredList(scripts)
    ensures OneChapteredList(ClipPage(scripts, player, loc, copy))
  {
    var r := ClipPage(scripts, player, loc, copy);
    if r != scripts {
      var (existing, hasChapters) := ReadExistingStrict(scripts).value;
      var entry := ClipEntry(Delivered(player).value, copy, hasChapters, loc).value;
      if |scripts| > 0 {
        SerializeWrappedArray(scripts[0].value.items);
      }
      PublishKeepsOneChaptered(scripts, existing, EntryToJson(entry));
    }
  }
}
