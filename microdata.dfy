/**
 * The schema.org VideoObject entry that both markup builders produce: the
 * metadata the player reports, the ISO 8601 duration, the chapter clips
 * with their page links, and the JSON the entry is written as.
 */
module Microdata {
  import opened Wrappers
  import opened JsString
  import opened JsonValue

  /** Key-moments rich results need a video longer than this many seconds. */
  const MinDuration: int := 30

  const DefaultThumbnail: string := "https://i.vimeocdn.com/portrait/default"

  datatype Chapter = Chapter(title: string, startTime: int)

  /**
   * The video-object metadata the player reports. Times are whole seconds;
   * a missing string field is the empty string.
   */
  datatype Metadata = Metadata(
    author: string,
    chapters: seq<Chapter>,
    description: string,
    duration: int,
    embedUrl: string,
    thumbnailUrl: string,
    thumbsBaseUrl: string,
    title: string,
    uploadDate: string)

  /** What the player's metadata promise settles to: a rejection, or a value that may be falsy. */
  datatype Fetch = Rejected | Resolved(data: Option<Metadata>)

  /** The `player` argument: falsy, or a player whose metadata request settles as given. */
  datatype PlayerArg = NoPlayer | Player(metadata: Fetch)

  /** The metadata the builder goes on with, if any. */
  function Delivered(player: PlayerArg): Option<Metadata> {
    if player.Player? && player.metadata.Resolved? then player.metadata.data else None
  }

  // ---------------------------------------------------------------------
  // Page location and its query string
  // ---------------------------------------------------------------------

  /** A parsed URL: everything before the query, the query's name/value pairs, and the fragment. */
  datatype Location = Location(prefix: string, query: seq<(string, string)>, hash: string)

  /** `url.searchParams.append(name, value)`: the pair goes after all existing ones. */
  function AppendParam(loc: Location, name: string, value: string): (r: Location)
    ensures r.prefix == loc.prefix && r.hash == loc.hash
    ensures |r.query| == |loc.query| + 1 && r.query[..|loc.query|] == loc.query
    ensures r.query[|loc.query|] == (name, value)
  {
    loc.(query := loc.query + [(name, value)])
  }

  function QueryText(query: seq<(string, string)>): string {
    if query == [] then ""
    else
      var first := query[0].0 + "=" + query[0].1;
      if |query| == 1 then first else first + "&" + QueryText(query[1..])
  }

  /** `url.href` (the percent-encoding of names and values is not modelled). */
  function Href(loc: Location): string {
    loc.prefix + (if loc.query == [] then "" else "?" + QueryText(loc.query)) + loc.hash
  }

  // ---------------------------------------------------------------------
  // ISO 8601 duration
  // ---------------------------------------------------------------------

  /**
   * Reads a duration of the form "PT" digits "S" (ISO 8601:2004, section
   * 4.4.3.2, designators P, T and S only) as a number of seconds.
   */
  function ParseIsoSeconds(s: string): Option<nat> {
    if |s| >= 4 && s[..2] == "PT" && s[|s| - 1] == 'S' && AllDigits(s[2..|s| - 1])
    then Some(DigitsValue(s[2..|s| - 1]))
    else None
  }

  /** `PT${seconds}S`. */
  function IsoDuration(seconds: int): string {
    "PT" + IntToDecimal(seconds) + "S"
  }

  /**
   * The duration reads back as the same number of seconds; a negative
   * count is rendered with a minus sign, which the ISO form does not allow.
   */
  lemma IsoDurationRoundTrip(seconds: int)
    ensures ParseIsoSeconds(IsoDuration(seconds)) == if seconds >= 0 then Some(seconds) else None
  {
    var s := IsoDuration(seconds);
    assert s[2..|s| - 1] == IntToDecimal(seconds);
    if seconds >= 0 {
      DigitsValueOfNatToDecimal(seconds);
    } else {
      assert s[2..|s| - 1][0] == '-';
    }
  }

  // ---------------------------------------------------------------------
  // Chapters as clips
  // ---------------------------------------------------------------------

  /** One entry of `hasPart`: a chapter with its end and its link; its '@type' is always "Clip". */
  datatype Clip = Clip(name: string, startOffset: int, endOffset: int, url: Location)

  /** The link to a moment of the video: the page location with `vimeo_t` set to it. */
  function MomentUrl(loc: Location, startOffset: int): Location {
    AppendParam(loc, "vimeo_t", IntToDecimal(startOffset))
  }

  /**
   * The clip list: one clip per chapter, in order, each ending where the
   * next chapter starts and the last one ending with the video.
   */
  function ChapterClips(chapters: seq<Chapter>, duration: int, loc: Location): (clips: seq<Clip>)
    ensures |clips| == |chapters|
    ensures forall i :: 0 <= i < |clips| ==>
      clips[i].name == chapters[i].title && clips[i].startOffset == chapters[i].startTime
    ensures forall i :: 0 <= i < |clips| ==>
      clips[i].endOffset == if i < |clips| - 1 then chapters[i + 1].startTime else duration
    ensures forall i :: 0 <= i < |clips| ==> clips[i].url == MomentUrl(loc, clips[i].startOffset)
  {
    seq(|chapters|, i requires 0 <= i < |chapters| =>
      var endOffset := if i < |chapters| - 1 then chapters[i + 1].startTime else duration;
      Clip(chapters[i].title, chapters[i].startTime, endOffset, MomentUrl(loc, chapters[i].startTime)))
  }

  /** The chapters a clip list was made from. */
  function ChaptersOf(clips: seq<Clip>): (chapters: seq<Chapter>)
    ensures |chapters| == |clips|
  {
    seq(|clips|, i requires 0 <= i < |clips| => Chapter(clips[i].name, clips[i].startOffset))
  }

  /** The clips give the chapters back. */
  lemma ChapterClipsRoundTrip(chapters: seq<Chapter>, duration: int, loc: Location)
    ensures ChaptersOf(ChapterClips(chapters, duration, loc)) == chapters
  {
  }

  /** Adjacent clips, each ending where the next begins. */
  predicate Contiguous(clips: seq<Clip>) {
    forall i :: 0 <= i < |clips| - 1 ==> clips[i].endOffset == clips[i + 1].startOffset
  }

  /** The summed lengths of the clips. */
  function TotalLength(clips: seq<Clip>): int {
    if clips == [] then 0
    else (clips[0].endOffset - clips[0].startOffset) + TotalLength(clips[1..])
  }

  lemma {:induction false} ContiguousTotal(clips: seq<Clip>)
    requires clips != [] && Contiguous(clips)
    ensures TotalLength(clips) == clips[|clips| - 1].endOffset - clips[0].startOffset
    decreases |clips|
  {
    if |clips| > 1 {
      assert Contiguous(clips[1..]) by {
        forall i | 0 <= i < |clips[1..]| - 1
          ensures clips[1..][i].endOffset == clips[1..][i + 1].startOffset
        {
          assert clips[1..][i] == clips[i + 1] && clips[1..][i + 1] == clips[i + 2];
        }
      }
      ContiguousTotal(clips[1..]);
    }
  }

  /**
   * The clips leave no gap and overlap nowhere: together they last from
   * the first chapter's start to the end of the video.
   */
  lemma ChapterClipsSpanVideo(chapters: seq<Chapter>, duration: int, loc: Location)
    requires chapters != []
    ensures TotalLength(ChapterClips(chapters, duration, loc)) == duration - chapters[0].startTime
  {
    var clips := ChapterClips(chapters, duration, loc);
    forall i | 0 <= i < |clips| - 1 ensures clips[i].endOffset == clips[i + 1].startOffset {
      assert clips[i].endOffset == chapters[i + 1].startTime;
    }
    ContiguousTotal(clips);
  }

  // ---------------------------------------------------------------------
  // The entry
  // ---------------------------------------------------------------------

  /** The VideoObject entry; its '@context' and '@type' are fixed. */
  datatype VideoObject = VideoObject(
    name: string,
    duration: string,
    description: string,
    uploadDate: string,
    embedUrl: string,
    thumbnailUrl: string,
    hasPart: Option<seq<Clip>>)

  /** Chapters are attached when there are some, the video is long enough, and no entry already has them. */
  predicate ChapterGate(chapters: seq<Chapter>, duration: int, existingHasChapters: bool) {
    |chapters| > 0 && duration > MinDuration && !existingHasChapters
  }

  /** `if (gate) { microdata.hasPart = hasPart; }` */
  function AttachChapters(entry: VideoObject, meta: Metadata, existingHasChapters: bool, loc: Location): (e: VideoObject)
    requires entry.hasPart.None?
    ensures e.hasPart.Some? <==> ChapterGate(meta.chapters, meta.duration, existingHasChapters)
    ensures e.hasPart.Some? ==> e.hasPart.value == ChapterClips(meta.chapters, meta.duration, loc)
    ensures e.(hasPart := None) == entry
  {
    if ChapterGate(meta.chapters, meta.duration, existingHasChapters)
    then entry.(hasPart := Some(ChapterClips(meta.chapters, meta.duration, loc)))
    else entry
  }

  /**
   * A clip as JSON: the chapter's name and offsets, then what
   * Object.assign adds, its '@type' and its url.
   */
  function ClipToJson(c: Clip): (j: Json)
    ensures j.JObj? && |j.members| == 5
    ensures !HasKey(j.members, "hasPart") && !HasKey(j.members, "hasOwnProperty")
  {
    var members := [("name", JStr(c.name)), ("startOffset", JNum(c.startOffset as real)),
                    ("endOffset", JNum(c.endOffset as real)), ("@type", JStr("Clip")),
                    ("url", JStr(Href(c.url)))];
    NoKeyOfOtherLength(members, "hasPart");
    NoKeyOfOtherLength(members, "hasOwnProperty");
    JObj(members)
  }

  /** Read back, a clip's JSON gives its type, name, offsets and url. */
  lemma ClipToJsonFields(c: Clip)
    ensures var j := ClipToJson(c);
      Member(j, "@type") == Some(JStr("Clip")) && Member(j, "url") == Some(JStr(Href(c.url))) &&
      Member(j, "name") == Some(JStr(c.name)) &&
      Member(j, "startOffset") == Some(JNum(c.startOffset as real)) &&
      Member(j, "endOffset") == Some(JNum(c.endOffset as real)) &&
      Member(j, "hasPart") == None
  {
    var members := ClipToJson(c).members;
    LookupUnique(members, "name", 0);
    LookupUnique(members, "startOffset", 1);
    LookupUnique(members, "endOffset", 2);
    LookupUnique(members, "@type", 3);
    LookupUnique(members, "url", 4);
  }

  /** The fixed members of an entry, in the order the source writes them. */
  function EntryMembers(e: VideoObject): seq<(string, Json)> {
    [("@context", JStr("http://schema.org")), ("@type", JStr("VideoObject")),
     ("name", JStr(e.name)), ("duration", JStr(e.duration)),
     ("description", JStr(e.description)), ("uploadDate", JStr(e.uploadDate)),
     ("embedUrl", JStr(e.embedUrl)), ("thumbnailUrl", JStr(e.thumbnailUrl))]
  }

  /** The clips of an entry as the JSON array its hasPart member holds. */
  function ClipsToJson(clips: seq<Clip>): (r: seq<Json>)
    ensures |r| == |clips| && forall i :: 0 <= i < |clips| ==> r[i] == ClipToJson(clips[i])
  {
    seq(|clips|, i requires 0 <= i < |clips| => ClipToJson(clips[i]))
  }

  /**
   * The entry as JSON: the fixed '@context' and '@type', the six fields,
   * and a hasPart member when it has clips. It is chaptered exactly when
   * it has clips, and the hasPart probe never throws on it.
   */
  function EntryToJson(e: VideoObject): (j: Json)
    ensures j.JObj? && |j.members| == if e.hasPart.Some? then 9 else 8
    ensures j.members[..8] == EntryMembers(e)
    ensures IsChaptered(j) <==> e.hasPart.Some?
    ensures !Throws(j)
  {
    var fixed := EntryMembers(e);
    NoKeyOfOtherLength(fixed, "hasPart");
    NoKeyOfOtherLength(fixed, "hasOwnProperty");
    match e.hasPart
    case None =>
      assert fixed[..8] == fixed;
      JObj(fixed)
    case Some(clips) =>
      var members := fixed + [("hasPart", JArr(ClipsToJson(clips)))];
      assert members[..8] == fixed;
      assert members[|fixed|].0 == "hasPart";
      assert forall i :: 0 <= i < |members| ==> members[i].0 != "hasOwnProperty";
      JObj(members)
  }

  /**
   * Read back, an entry's JSON gives its fixed '@context' and '@type' and
   * its six fields, and holds the clips under hasPart exactly when it has
   * them.
   */
  lemma EntryToJsonFields(e: VideoObject)
    ensures var j := EntryToJson(e);
      Member(j, "@context") == Some(JStr("http://schema.org")) &&
      Member(j, "@type") == Some(JStr("VideoObject")) &&
      Member(j, "name") == Some(JStr(e.name)) &&
      Member(j, "duration") == Some(JStr(e.duration)) &&
      Member(j, "description") == Some(JStr(e.description)) &&
      Member(j, "uploadDate") == Some(JStr(e.uploadDate)) &&
      Member(j, "embedUrl") == Some(JStr(e.embedUrl)) &&
      Member(j, "thumbnailUrl") == Some(JStr(e.thumbnailUrl))
    ensures e.hasPart.None? ==> Member(EntryToJson(e), "hasPart") == None
    ensures e.hasPart.Some? ==> Member(EntryToJson(e), "hasPart") == Some(JArr(ClipsToJson(e.hasPart.value)))
  {
    var j := EntryToJson(e);
    EntryMembersLookup(e, j.members);
    if e.hasPart.Some? {
      assert j.members[8] == ("hasPart", JArr(ClipsToJson(e.hasPart.value)));
    }
  }

  /** The fixed members of an entry, followed by members of other keys, look up as written. */
  lemma EntryMembersLookup(e: VideoObject, members: seq<(string, Json)>)
    requires |members| >= 8 && members[..8] == EntryMembers(e)
    requires forall i :: 8 <= i < |members| ==> |members[i].0| == 7
    ensures Lookup(members, "@context") == Some(JStr("http://schema.org"))
    ensures Lookup(members, "@type") == Some(JStr("VideoObject"))
    ensures Lookup(members, "name") == Some(JStr(e.name))
    ensures Lookup(members, "duration") == Some(JStr(e.duration))
    ensures Lookup(members, "description") == Some(JStr(e.description))
    ensures Lookup(members, "uploadDate") == Some(JStr(e.uploadDate))
    ensures Lookup(members, "embedUrl") == Some(JStr(e.embedUrl))
    ensures Lookup(members, "thumbnailUrl") == Some(JStr(e.thumbnailUrl))
  {
    assert forall i :: 0 <= i < 8 ==> members[i] == EntryMembers(e)[i];
    EntryKeyLookup(members, "@context", 0);
    EntryKeyLookup(members, "@type", 1);
    EntryKeyLookup(members, "name", 2);
    EntryKeyLookup(members, "duration", 3);
    EntryKeyLookup(members, "description", 4);
    EntryKeyLookup(members, "uploadDate", 5);
    EntryKeyLookup(members, "embedUrl", 6);
    EntryKeyLookup(members, "thumbnailUrl", 7);
  }

  /** The keys an entry is written with: distinct, and none of length 7. */
  const EntryKeys: seq<string> :=
    ["@context", "@type", "name", "duration", "description", "uploadDate", "embedUrl", "thumbnailUrl"]

  /** One fixed key of an entry looks up as the value written with it. */
  lemma EntryKeyLookup(members: seq<(string, Json)>, key: string, i: nat)
    requires |members| >= 8 && i < 8 && key == EntryKeys[i]
    requires forall k :: 0 <= k < 8 ==> members[k].0 == EntryKeys[k]
    requires forall k :: 8 <= k < |members| ==> |members[k].0| == 7
    ensures Lookup(members, key) == Some(members[i].1)
  {
    forall k | 0 <= k < |members| && k != i ensures members[k].0 != key {
      if k < 8 {
        assert EntryKeys[k] != EntryKeys[i];
      }
    }
    LookupUnique(members, key, i);
  }

  lemma NoKeyOfOtherLength(members: seq<(string, Json)>, key: string)
    requires forall i :: 0 <= i < |members| ==> |members[i].0| != |key|
    ensures !HasKey(members, key)
  {
  }

  // ---------------------------------------------------------------------
  // Writing the list back
  // ---------------------------------------------------------------------

  /**
   * The page after a builder's callback writes its entry back. When it
   * found a first ld+json script on reading, the element it captured
   * then (still the first, as scripts are only ever appended) gets
   * `[...existing, entry]`; otherwise a script holding `[entry]` is
   * appended to the head, whatever scripts the page has gained since.
   */
  function WriteBack(scripts: seq<ScriptText>, hadScript: bool, existing: seq<Slot>, entry: Json): (r: seq<ScriptText>)
    requires hadScript ==> |scripts| > 0
    ensures hadScript ==> |r| == |scripts| && r[1..] == scripts[1..]
    ensures hadScript ==> r[0] == Parsed(JArr(Serialize(existing) + [entry]))
    ensures !hadScript ==> |r| == |scripts| + 1 && r[..|scripts|] == scripts
    ensures !hadScript ==> r[|scripts|] == Parsed(JArr([entry]))
  {
    if hadScript then scripts[0 := Parsed(JArr(Serialize(existing) + [entry]))]
    else scripts + [Parsed(JArr([entry]))]
  }

  /**
   * The page after a builder that read it and wrote back with nothing in
   * between: into the first ld+json script, or into a new one when
   * there was none.
   */
  function Publish(scripts: seq<ScriptText>, existing: seq<Slot>, entry: Json): (r: seq<ScriptText>)
    ensures |scripts| > 0 ==> |r| == |scripts| && r[1..] == scripts[1..]
    ensures |scripts| > 0 ==> r[0] == Parsed(JArr(Serialize(existing) + [entry]))
    ensures |scripts| == 0 ==> r == [Parsed(JArr([entry]))]
  {
    WriteBack(scripts, |scripts| > 0, existing, entry)
  }

  /**
   * The page holds no ld+json script, or the first one holds a list that
   * the hasPart probe reads without throwing and in which at most one
   * entry carries chapters.
   */
  predicate OneChapteredList(scripts: seq<ScriptText>) {
    |scripts| == 0 ||
    (scripts[0].Parsed? && scripts[0].value.JArr? &&
     ChapteredCount(scripts[0].value.items) <= 1 &&
     forall i :: 0 <= i < |scripts[0].value.items| ==> !Throws(scripts[0].value.items[i]))
  }

  /**
   * Appending one entry to a list that holds chapters at most once keeps
   * it so, provided the entry carries chapters only when the list had none.
   */
  lemma PublishKeepsOneChaptered(scripts: seq<ScriptText>, existing: seq<Slot>, entry: Json)
    requires |scripts| > 0 ==> scripts[0].Parsed? && scripts[0].value.JArr? && Serialize(existing) == scripts[0].value.items
    requires OneChapteredList(scripts)
    requires !Throws(entry)
    requires IsChaptered(entry) ==> ChapteredCount(Serialize(existing)) == 0
    ensures OneChapteredList(Publish(scripts, existing, entry))
  {
    var items := Serialize(existing);
    ChapteredCountAppend(items, [entry]);
    assert ChapteredCount([entry]) == if IsChaptered(entry) then 1 else 0 by {
      assert [entry][1..] == [];
    }
    if |scripts| > 0 {
      var list := items + [entry];
      assert forall i :: 0 <= i < |list| ==> !Throws(list[i]) by {
        forall i | 0 <= i < |list| ensures !Throws(list[i]) {
          if i < |items| {
            assert list[i] == scripts[0].value.items[i];
          }
        }
      }
    }
  }
}
