/**
 * The embed helpers of src/lib/functions.js: the getter/setter name rule,
 * the integer test, the vimeo.com URL recogniser and the rule that turns
 * oEmbed parameters into a canonical video URL.
 */
module Functions {
  import opened Wrappers
  import opened JsString

  // ---------------------------------------------------------------------
  // getMethodName
  // ---------------------------------------------------------------------

  /**
   * The name of the player method that gets or sets `prop`: `prop` itself
   * when it already begins with the lower-cased `kind` ("get"/"set"),
   * otherwise the lower-cased kind followed by `prop` with its first
   * character upper-cased.
   */
  function GetMethodName(prop: string, kind: string): (r: string)
    ensures StartsWith(prop, ToLower(kind)) ==> r == prop
    ensures !StartsWith(prop, ToLower(kind)) && prop != [] ==>
      r == ToLower(kind) + [UpperChar(prop[0])] + prop[1..]
    ensures !StartsWith(prop, ToLower(kind)) && prop == [] ==> r == ToLower(kind)
    ensures StartsWith(r, ToLower(kind))
  {
    var prefix := ToLower(kind);
    IndexOfZeroIffStartsWith(prop, prefix);
    if IndexOf(prop, prefix) == Some(0) then prop
    else
      // prop.substr(0, 1) and prop.substr(1)
      var head := if prop == [] then "" else prop[..1];
      var tail := if prop == [] then "" else prop[1..];
      prefix + ToUpper(head) + tail
  }

  /** A derived name is its own derived name. */
  lemma GetMethodNameIdempotent(prop: string, kind: string)
    ensures GetMethodName(GetMethodName(prop, kind), kind) == GetMethodName(prop, kind)
  {
  }

  lemma GetMethodNameGetExamples()
    ensures GetMethodName("color", "get") == "getColor"
    ensures GetMethodName("color", "GET") == "getColor"
    ensures GetMethodName("getColor", "get") == "getColor"
  {
    assert ToLower("get") == "get";
    assert ToLower("GET") == "get";
    MismatchNotPrefix("color", "get", 0);
    assert UpperChar('c') == 'C';
    assert "get" + ['C'] + "color"[1..] == "getColor";
    assert "getColor"[..3] == "get";
  }

  lemma GetMethodNameSetExamples()
    ensures GetMethodName("color", "set") == "setColor"
    ensures GetMethodName("color", "SET") == "setColor"
    ensures GetMethodName("setColor", "set") == "setColor"
  {
    assert ToLower("set") == "set";
    assert ToLower("SET") == "set";
    MismatchNotPrefix("color", "set", 0);
    assert UpperChar('c') == 'C';
    assert "set" + ['C'] + "color"[1..] == "setColor";
    assert "setColor"[..3] == "set";
  }

  // ---------------------------------------------------------------------
  // JavaScript values handed to isInteger and getVimeoUrl
  // ---------------------------------------------------------------------

  /** The kinds of value an embed option can hold (objects are not modelled). */
  datatype JsValue =
    | Undefined
    | Null
    | Bool(b: bool)
    | Number(n: real)              // a finite Number
    | NaN
    | Infinity(negative: bool)
    | Str(s: string)

  /** JavaScript truthiness. */
  predicate Truthy(v: JsValue) {
    match v
    case Undefined => false
    case Null => false
    case Bool(b) => b
    case Number(n) => n != 0.0
    case NaN => false
    case Infinity(_) => true
    case Str(s) => s != ""
  }

  /** `s` without one leading sign character. */
  function Unsigned(s: string): string {
    if |s| > 0 && (s[0] == '+' || s[0] == '-') then s[1..] else s
  }

  /**
   * A plain decimal literal: an optional sign, then digits with at most one
   * decimal point and at least one digit ("12", "-1.50", ".5", "3.").
   */
  predicate IsDecimalLiteral(s: string) {
    var u := Unsigned(s);
    match IndexOf(u, ".")
    case None => |u| > 0 && AllDigits(u)
    case Some(k) => |u| > 1 && AllDigits(u[..k]) && AllDigits(u[k + 1..])
  }

  /** A decimal literal whose fractional digits are all zero. */
  predicate IsIntegralDecimal(s: string) {
    IsDecimalLiteral(s) &&
    var u := Unsigned(s);
    match IndexOf(u, ".")
    case None => true
    case Some(k) => forall i :: k < i < |u| ==> u[i] == '0'
  }

  /**
   * isInteger: parseFloat(value) is not NaN, value is finite and
   * Math.floor(value) == value. For a string this holds of a decimal
   * literal with no non-zero fractional digit; for a boolean, null,
   * undefined, NaN or an infinity it never holds.
   */
  predicate IsInteger(v: JsValue) {
    match v
    case Number(n) => n.Floor as real == n
    case Str(s) => IsIntegralDecimal(s)
    case _ => false
  }

  lemma IsIntegerExamples()
    ensures IsInteger(Number(1.0))
    ensures IsInteger(Str("1"))
    ensures !IsInteger(Number(1.1))
    ensures !IsInteger(Bool(false))
    ensures !IsInteger(NaN)
    ensures !IsInteger(Infinity(false))
  {
    NoDotInDigits("1");
  }

  lemma NoDotInDigits(u: string)
    requires AllDigits(u)
    ensures IndexOf(u, ".") == None
  {
    forall k | 0 <= k < |u| ensures !OccursAt(u, ".", k) {
      MismatchNotPrefix(u[k..], ".", 0);
      assert u[k..][..1] == u[k..k + 1];
    }
  }

  /** Every integral Number, and the decimal text of every integer, is an integer. */
  lemma IntegersAreIntegers(i: int)
    ensures IsInteger(Number(i as real))
    ensures IsInteger(Str(IntToDecimal(i)))
  {
    var s := IntToDecimal(i);
    var u := Unsigned(s);
    if i < 0 {
      assert u == s[1..];
    } else {
      assert u == s;
    }
    NoDotInDigits(u);
  }

  /** The text of an integer value, as a template literal renders it. */
  function IntegerText(v: JsValue): (t: string)
    requires IsInteger(v)
    ensures v.Str? ==> t == v.s
  {
    if v.Number? then IntToDecimal(v.n.Floor) else v.s
  }

  /** The text of an integer value is never empty and never begins with '/' or 'h'. */
  lemma IntegerTextHead(v: JsValue)
    requires IsInteger(v)
    ensures |IntegerText(v)| > 0
    ensures IntegerText(v)[0] != '/' && IntegerText(v)[0] != 'h'
  {
    if v.Str? {
      var u := Unsigned(v.s);
      if |v.s| > 0 && (v.s[0] == '+' || v.s[0] == '-') {
      } else {
        assert u == v.s;
        match IndexOf(u, ".")
        case None =>
          assert IsDigit(u[0]);
        case Some(k) =>
          if k > 0 {
            assert IsDigit(u[..k][0]);
          } else {
            assert u[0..1][0] == u[0];
          }
      }
    }
  }

  // ---------------------------------------------------------------------
  // isVimeoUrl
  // ---------------------------------------------------------------------

  /** The length of an "https:" or "http:" scheme at the start of `s`, or 0. */
  function SchemeLength(s: string): (n: nat)
    ensures n <= |s|
  {
    if StartsWith(s, "https:") then 6 else if StartsWith(s, "http:") then 5 else 0
  }

  /** The length of a "player." or "www." label at the start of `s`, or 0. */
  function SubdomainLength(s: string): (n: nat)
    ensures n <= |s|
  {
    if StartsWith(s, "player.") then 7 else if StartsWith(s, "www.") then 4 else 0
  }

  /**
   * Where "vimeo.com" ends when `s` reads scheme? "//" subdomain? "vimeo.com",
   * the optional parts being taken whenever they are present.
   */
  function HostEnd(s: string): (r: Option<nat>)
    ensures r.Some? ==> r.value <= |s|
  {
    var a := SchemeLength(s);
    if !StartsWith(s[a..], "//") then None
    else
      var b := a + 2;
      var c := b + SubdomainLength(s[b..]);
      if StartsWith(s[c..], "vimeo.com") then Some(c + 9) else None
  }

  /**
   * isVimeoUrl: /^(https?:)?\/\/((player|www)\.)?vimeo\.com(?=$|\/)/.
   * Each optional group starts with a character the text after it cannot
   * start with, so taking it whenever it is present is the only match.
   */
  predicate IsVimeoUrl(s: string) {
    match HostEnd(s)
    case None => false
    case Some(e) => e == |s| || s[e] == '/'
  }

  const Schemes: seq<string> := ["", "http:", "https:"]
  const Subdomains: seq<string> := ["", "player.", "www."]

  /** The host part that scheme number `i` and subdomain number `j` spell. */
  function HostPrefix(i: nat, j: nat): string
    requires i < 3 && j < 3
  {
    Schemes[i] + "//" + Subdomains[j] + "vimeo.com"
  }

  /** `s` is the host part (i, j) followed by nothing or by a path. */
  predicate MatchesHost(s: string, i: nat, j: nat)
    requires i < 3 && j < 3
  {
    var p := HostPrefix(i, j);
    StartsWith(s, p) && (|s| == |p| || s[|p|] == '/')
  }

  /** The pattern written out as its nine alternatives. */
  ghost predicate VimeoPattern(s: string) {
    exists i: nat, j: nat :: i < 3 && j < 3 && MatchesHost(s, i, j)
  }

  /** The scheme and subdomain that HostEnd takes, by number. */
  function SchemeIndex(s: string): nat {
    if StartsWith(s, "https:") then 2 else if StartsWith(s, "http:") then 1 else 0
  }

  function SubdomainIndex(s: string): nat {
    if StartsWith(s, "player.") then 1 else if StartsWith(s, "www.") then 2 else 0
  }

  lemma SplitStartsWith(s: string, p: string, q: string)
    ensures StartsWith(s, p + q) <==> StartsWith(s, p) && StartsWith(s[|p|..], q)
  {
    if StartsWith(s, p) && StartsWith(s[|p|..], q) {
      assert s[..|p + q|] == s[..|p|] + s[|p|..][..|q|];
    }
    if StartsWith(s, p + q) {
      assert s[..|p|] == (p + q)[..|p|];
      assert s[|p|..][..|q|] == s[..|p + q|][|p|..];
    }
  }

  /** When the host is recognised, it is the host part HostEnd chose. */
  lemma HostEndIsPrefix(s: string)
    requires HostEnd(s).Some?
    ensures var i, j := SchemeIndex(s), SubdomainIndex(s[SchemeLength(s) + 2..]);
      i < 3 && j < 3 && StartsWith(s, HostPrefix(i, j)) && HostEnd(s).value == |HostPrefix(i, j)|
  {
    var a := SchemeLength(s);
    var b := a + 2;
    var i, j := SchemeIndex(s), SubdomainIndex(s[b..]);
    assert Schemes[i] == s[..a];
    assert Subdomains[j] == s[b..][..SubdomainLength(s[b..])];
    var c := b + SubdomainLength(s[b..]);
    assert s[b..][SubdomainLength(s[b..])..] == s[c..];
    SplitStartsWith(s[b..], Subdomains[j], "vimeo.com");
    assert s[a..][2..] == s[b..];
    SplitStartsWith(s[a..], "//", Subdomains[j] + "vimeo.com");
    SplitStartsWith(s, Schemes[i], "//" + (Subdomains[j] + "vimeo.com"));
    assert HostPrefix(i, j) == Schemes[i] + ("//" + (Subdomains[j] + "vimeo.com"));
  }

  /** A host part read back by HostEnd ends where it was written to end. */
  lemma HostEndOfPrefix(s: string, i: nat, j: nat)
    requires i < 3 && j < 3 && StartsWith(s, HostPrefix(i, j))
    ensures HostEnd(s) == Some(|HostPrefix(i, j)|)
  {
    var p := HostPrefix(i, j);
    assert p == Schemes[i] + ("//" + (Subdomains[j] + "vimeo.com"));
    SplitStartsWith(s, Schemes[i], "//" + (Subdomains[j] + "vimeo.com"));
    var a := |Schemes[i]|;
    SchemeLengthOf(s, i);
    SplitStartsWith(s[a..], "//", Subdomains[j] + "vimeo.com");
    var b := a + 2;
    assert s[a..][2..] == s[b..];
    SplitStartsWith(s[b..], Subdomains[j], "vimeo.com");
    var t := s[b..];
    SubdomainLengthOf(t, j);
    assert t[|Subdomains[j]|..] == s[b + |Subdomains[j]|..];
  }

  /** A written scheme followed by "//" is read back at its own length. */
  lemma SchemeLengthOf(s: string, i: nat)
    requires i < 3 && StartsWith(s, Schemes[i]) && StartsWith(s[|Schemes[i]|..], "//")
    ensures SchemeLength(s) == |Schemes[i]|
  {
    if i == 0 {
      assert s[0] == '/';
    } else if i == 1 {
      assert s[..5] == "http:";
      assert s[4] == ':';
    } else {
      assert s[..6] == "https:";
    }
  }

  /** A written subdomain followed by "vimeo.com" is read back at its own length. */
  lemma SubdomainLengthOf(t: string, j: nat)
    requires j < 3 && StartsWith(t, Subdomains[j]) && StartsWith(t[|Subdomains[j]|..], "vimeo.com")
    ensures SubdomainLength(t) == |Subdomains[j]|
  {
    if j == 0 {
      assert t[0] == 'v';
    } else if j == 1 {
      assert t[..7] == "player.";
    } else {
      assert t[..4] == "www.";
      assert t[0] == 'w';
    }
  }

  /** isVimeoUrl accepts exactly the nine spelled-out host parts followed by nothing or a path. */
  lemma IsVimeoUrlIffPattern(s: string)
    ensures IsVimeoUrl(s) <==> VimeoPattern(s)
  {
    if IsVimeoUrl(s) {
      HostEndIsPrefix(s);
      var i, j := SchemeIndex(s), SubdomainIndex(s[SchemeLength(s) + 2..]);
      assert MatchesHost(s, i, j);
    }
    if VimeoPattern(s) {
      var i: nat, j: nat :| i < 3 && j < 3 && MatchesHost(s, i, j);
      HostEndOfPrefix(s, i, j);
    }
  }

  /** Scheme number `i`, "//" and subdomain number `j`: the part before "vimeo.com". */
  function HostLead(i: nat, j: nat): (r: string)
    requires i < 3 && j < 3
    ensures HostPrefix(i, j) == r + "vimeo.com"
  {
    Schemes[i] + "//" + Subdomains[j]
  }

  lemma StartsWithConcat(a: string, b: string)
    ensures StartsWith(a + b, a)
  {
    assert (a + b)[..|a|] == a;
  }

  /** A scheme followed by "//" is read as that scheme. */
  lemma SchemeOfLead(i: nat, tail: string)
    requires i < 3 && |tail| > 0 && tail[0] == '/'
    ensures SchemeLength(Schemes[i] + tail) == |Schemes[i]|
    ensures (Schemes[i] + tail)[|Schemes[i]|..] == tail
  {
    var s := Schemes[i] + tail;
    StartsWithConcat(Schemes[i], tail);
    if i == 0 {
      assert s[0] == '/';
    } else if i == 1 {
      assert s[..5] == "http:";
      assert s[4] == ':';
    } else {
      assert s[..6] == "https:";
    }
  }

  /** A subdomain is read as that subdomain; no subdomain only when none follows. */
  lemma SubdomainOfLead(j: nat, rest: string)
    requires j < 3
    requires j == 0 ==> !StartsWith(rest, "player.") && !StartsWith(rest, "www.")
    ensures SubdomainLength(Subdomains[j] + rest) == |Subdomains[j]|
    ensures (Subdomains[j] + rest)[|Subdomains[j]|..] == rest
  {
    var t := Subdomains[j] + rest;
    StartsWithConcat(Subdomains[j], rest);
    if j == 1 {
      assert t[..7] == "player.";
    } else if j == 2 {
      assert t[..4] == "www.";
      assert t[0] == 'w';
    } else {
      assert t == rest;
    }
  }

  /**
   * After a scheme, "//" and a subdomain (none only when the rest does not
   * start with one), the host is recognised exactly when "vimeo.com" follows.
   */
  lemma HostEndOfLead(i: nat, j: nat, rest: string)
    requires i < 3 && j < 3
    requires j == 0 ==> !StartsWith(rest, "player.") && !StartsWith(rest, "www.")
    ensures HostEnd(HostLead(i, j) + rest) ==
      if StartsWith(rest, "vimeo.com") then Some(|HostLead(i, j)| + 9) else None
  {
    var t := Subdomains[j] + rest;
    var s := HostLead(i, j) + rest;
    assert s == Schemes[i] + ("//" + t);
    SchemeOfLead(i, "//" + t);
    var a := |Schemes[i]|;
    assert s[a..] == "//" + t;
    StartsWithConcat("//", t);
    assert s[a + 2..] == t;
    SubdomainOfLead(j, rest);
    assert s[a + 2 + |Subdomains[j]|..] == rest;
  }

  /** A recognised host followed by nothing or by a path is accepted. */
  lemma HostWithPath(i: nat, j: nat, path: string)
    requires i < 3 && j < 3 && (path == [] || path[0] == '/')
    ensures IsVimeoUrl(HostPrefix(i, j) + path)
  {
    var s := HostPrefix(i, j) + path;
    StartsWithConcat(HostPrefix(i, j), path);
    HostEndOfPrefix(s, i, j);
  }

  /** A recognised host followed by anything but a path is rejected. */
  lemma HostWithMore(i: nat, j: nat, more: string)
    requires i < 3 && j < 3 && more != [] && more[0] != '/'
    ensures !IsVimeoUrl(HostPrefix(i, j) + more)
  {
    var s := HostPrefix(i, j) + more;
    StartsWithConcat(HostPrefix(i, j), more);
    HostEndOfPrefix(s, i, j);
    assert s[|HostPrefix(i, j)|] == more[0];
  }

  /** A host that is not "vimeo.com" after the scheme and subdomain is rejected. */
  lemma HostNotVimeo(i: nat, j: nat, rest: string)
    requires i < 3 && j < 3
    requires j == 0 ==> !StartsWith(rest, "player.") && !StartsWith(rest, "www.")
    requires !StartsWith(rest, "vimeo.com")
    ensures !IsVimeoUrl(HostLead(i, j) + rest)
  {
    HostEndOfLead(i, j, rest);
  }

  lemma IsVimeoUrlAccepts()
    ensures IsVimeoUrl("http://vimeo.com")
  {
    assert HostPrefix(1, 0) == "http://vimeo.com";
    assert HostPrefix(1, 0) + "" == HostPrefix(1, 0);
    HostWithPath(1, 0, "");
  }

  lemma IsVimeoUrlAcceptsPath()
    ensures IsVimeoUrl("https://player.vimeo.com/video/123")
  {
    assert HostPrefix(2, 1) == "https://player.vimeo.com";
    assert "https://player.vimeo.com" + "/video/123" == "https://player.vimeo.com/video/123";
    HostWithPath(2, 1, "/video/123");
  }

  /** vimeo.com followed by more host labels is rejected. */
  lemma IsVimeoUrlRejectsLongerHost()
    ensures !IsVimeoUrl("https://vimeo.com.evil.net")
  {
    assert HostPrefix(2, 0) == "https://vimeo.com";
    assert "https://vimeo.com" + ".evil.net" == "https://vimeo.com.evil.net";
    HostWithMore(2, 0, ".evil.net");
  }

  /** The same after a subdomain. */
  lemma IsVimeoUrlRejectsLongerPlayerHost()
    ensures !IsVimeoUrl("http://player.vimeo.com.evil.com")
  {
    assert HostPrefix(1, 1) == "http://player.vimeo.com";
    assert "http://player.vimeo.com" + ".evil.com" == "http://player.vimeo.com.evil.com";
    HostWithMore(1, 1, ".evil.com");
  }

  /** Any https URL whose host starts with "notvimeo" is rejected. */
  lemma NotVimeoDotCom(rest: string)
    ensures !IsVimeoUrl("https://notvimeo" + rest)
  {
    var r := "notvimeo" + rest;
    assert r[0] == 'n';
    MismatchNotPrefix(r, "player.", 0);
    MismatchNotPrefix(r, "www.", 0);
    MismatchNotPrefix(r, "vimeo.com", 0);
    assert HostLead(2, 0) == "https://";
    assert "https://notvimeo" + rest == "https://" + r;
    HostNotVimeo(2, 0, r);
  }

  lemma IsVimeoUrlRejectsNotVimeo()
    ensures !IsVimeoUrl("https://notvimeo.com")
  {
    assert "https://notvimeo" + ".com" == "https://notvimeo.com";
    NotVimeoDotCom(".com");
  }

  /** A host that merely ends in "vimeo.com" is rejected. */
  lemma IsVimeoUrlRejectsWww2()
    ensures !IsVimeoUrl("https://www2vimeo.com")
  {
    var r := "www2vimeo.com";
    MismatchNotPrefix(r, "player.", 0);
    MismatchNotPrefix(r, "www.", 3);
    MismatchNotPrefix(r, "vimeo.com", 0);
    assert HostLead(2, 0) == "https://";
    assert "https://" + r == "https://www2vimeo.com";
    HostNotVimeo(2, 0, r);
  }

  /** A host that starts with "vimeo." but is not vimeo.com is rejected. */
  lemma IsVimeoUrlRejectsOtherDomain()
    ensures !IsVimeoUrl("https://vimeo.someone.com")
  {
    var r := "vimeo.someone.com";
    MismatchNotPrefix(r, "player.", 0);
    MismatchNotPrefix(r, "www.", 0);
    MismatchNotPrefix(r, "vimeo.com", 6);
    assert HostLead(2, 0) == "https://";
    assert "https://" + r == "https://vimeo.someone.com";
    HostNotVimeo(2, 0, r);
  }

  /** The dot of vimeo.com must be a dot. */
  lemma IsVimeoUrlRejectsMissingDot()
    ensures !IsVimeoUrl("https://player.vimeozcom")
  {
    var r := "vimeozcom";
    MismatchNotPrefix(r, "vimeo.com", 5);
    assert HostLead(2, 1) == "https://player.";
    assert "https://player." + r == "https://player.vimeozcom";
    HostNotVimeo(2, 1, r);
  }

  /** A string none of whose nine host parts it starts with is rejected. */
  lemma RejectedHost(s: string)
    requires forall i: nat, j: nat :: i < 3 && j < 3 ==> !StartsWith(s, HostPrefix(i, j))
    ensures !IsVimeoUrl(s)
  {
    if HostEnd(s).Some? {
      HostEndIsPrefix(s);
    }
  }

  // ---------------------------------------------------------------------
  // getVimeoUrl
  // ---------------------------------------------------------------------

  /** The oEmbed parameters; a missing key is Undefined. */
  datatype EmbedParameters = EmbedParameters(id: JsValue, url: JsValue)

  /**
   * The errors getVimeoUrl throws: a plain Error when neither key is
   * truthy, a TypeError naming the offending id or url otherwise.
   */
  datatype EmbedError =
    | MissingIdOrUrl
    | InvalidVideoId(id: JsValue)
    | NotVimeoUrl(value: JsValue)

  /** `id || url`. */
  function IdOrUrl(p: EmbedParameters): JsValue {
    if Truthy(p.id) then p.id else p.url
  }

  /**
   * getVimeoUrl. The regex test of a non-string value reads its string
   * form, which for the values modelled here never starts with "/" or "h",
   * so only a string can pass as a Vimeo URL.
   */
  function GetVimeoUrl(p: EmbedParameters): (r: Result<string, EmbedError>)
    ensures r == Failure(MissingIdOrUrl) <==> !Truthy(p.id) && !Truthy(p.url)
    ensures r.Success? ==> IsVimeoUrl(r.value) && !StartsWith(r.value, "http:")
  {
    var v := IdOrUrl(p);
    if !Truthy(v) then Failure(MissingIdOrUrl)
    else if IsInteger(v) then
      IntegerUrlIsVimeoUrl(IntegerText(v));
      Success("https://vimeo.com/" + IntegerText(v))
    else if v.Str? && IsVimeoUrl(v.s) then
      UpgradeKeepsVimeoUrl(v.s);
      Success(ReplaceFirst(v.s, "http:", "https:"))
    else if Truthy(p.id) then Failure(InvalidVideoId(p.id))
    else Failure(NotVimeoUrl(v))
  }

  lemma IntegerUrlIsVimeoUrl(t: string)
    ensures IsVimeoUrl("https://vimeo.com/" + t)
    ensures !StartsWith("https://vimeo.com/" + t, "http:")
  {
    var s := "https://vimeo.com/" + t;
    assert s[..17] == HostPrefix(2, 0);
    HostEndOfPrefix(s, 2, 0);
    MismatchNotPrefix(s, "http:", 4);
  }

  /** Replacing the first "http:" of a Vimeo URL by "https:" leaves an https or scheme-less Vimeo URL. */
  lemma UpgradeKeepsVimeoUrl(s: string)
    requires IsVimeoUrl(s)
    ensures IsVimeoUrl(ReplaceFirst(s, "http:", "https:"))
    ensures !StartsWith(ReplaceFirst(s, "http:", "https:"), "http:")
  {
    if SchemeIndex(s) == 1 {
      UpgradeHttpScheme(s);
    } else {
      UpgradeLeavesOtherSchemes(s);
    }
  }

  /** An "http:" scheme is the first occurrence and becomes "https:". */
  lemma UpgradeHttpScheme(s: string)
    requires IsVimeoUrl(s) && SchemeIndex(s) == 1
    ensures ReplaceFirst(s, "http:", "https:") == "https:" + s[5..]
    ensures IsVimeoUrl("https:" + s[5..])
    ensures !StartsWith("https:" + s[5..], "http:")
  {
    assert OccursAt(s, "http:", 0);
    UpgradedHost(s);
    MismatchNotPrefix("https:" + s[5..], "http:", 4);
  }

  /** Upgrading an "http:" scheme to "https:" keeps the rest of the host and what follows it. */
  lemma UpgradedHost(s: string)
    requires IsVimeoUrl(s) && SchemeIndex(s) == 1
    ensures IsVimeoUrl("https:" + s[5..])
  {
    HostEndIsPrefix(s);
    var e := HostEnd(s).value;
    var j := SubdomainIndex(s[7..]);
    var r := "https:" + s[5..];
    var p := HostPrefix(1, j);
    var q := HostPrefix(2, j);
    assert p == "http:" + p[5..];
    assert q == "https:" + p[5..];
    assert r[..|q|] == q;
    HostEndOfPrefix(r, 2, j);
    assert e < |s| ==> r[e + 1] == s[e];
  }

  /** Without an "http:" scheme the host part is left alone and keeps its scheme. */
  lemma UpgradeLeavesOtherSchemes(s: string)
    requires IsVimeoUrl(s) && SchemeIndex(s) != 1
    ensures IsVimeoUrl(ReplaceFirst(s, "http:", "https:"))
    ensures !StartsWith(ReplaceFirst(s, "http:", "https:"), "http:")
  {
    var r := ReplaceFirst(s, "http:", "https:");
    HostEndIsPrefix(s);
    var e := HostEnd(s).value;
    var i, j := SchemeIndex(s), SubdomainIndex(s[SchemeLength(s) + 2..]);
    var p := HostPrefix(i, j);
    assert s[..e] == p;
    HostPrefixLetters(i, j);
    NoOccurrenceInHost(s, p, e);
    assert r[..e] == p by {
      if IndexOf(s, "http:").Some? {
        assert r[..IndexOf(s, "http:").value][..e] == s[..e];
      }
    }
    assert e < |s| ==> r[e] == s[e];
    HostEndOfPrefix(r, i, j);
    if i == 0 {
      MismatchNotPrefix(r, "http:", 0);
    } else {
      MismatchNotPrefix(r, "http:", 4);
    }
  }

  /** No 'h' at or after index `from`. */
  predicate NoHFrom(s: string, from: nat) {
    forall k :: from <= k < |s| ==> s[k] != 'h'
  }

  lemma NoHConcat(a: string, b: string, from: nat)
    requires from <= |a| && NoHFrom(a, from) && NoHFrom(b, 0)
    ensures NoHFrom(a + b, from)
  {
    forall k | from <= k < |a + b|
      ensures (a + b)[k] != 'h'
    {
      if k >= |a| {
        assert (a + b)[k] == b[k - |a|];
      }
    }
  }

  /** The only 'h' in a host part is the first letter of its scheme. */
  lemma HostPrefixLetters(i: nat, j: nat)
    requires i < 3 && j < 3 && i != 1
    ensures var p := HostPrefix(i, j);
      |p| > 4 && NoHFrom(p, 1) &&
      (i == 0 ==> p[0] == '/') && (i == 2 ==> p[4] == 's')
  {
    var sub := Subdomains[j];
    assert NoHFrom(sub, 0) by {
      if j == 1 {
        assert sub == "player.";
      } else if j == 2 {
        assert sub == "www.";
      }
    }
    var scheme := Schemes[i];
    assert NoHFrom(scheme, 1) by {
      if i == 2 {
        assert scheme == "https:";
      }
    }
    assert NoHFrom("//", 0);
    assert NoHFrom("vimeo.com", 0);
    var f := if i == 0 then 0 else 1;
    NoHConcat(scheme, "//", f);
    NoHConcat(scheme + "//", sub, f);
    NoHConcat(scheme + "//" + sub, "vimeo.com", f);
    assert HostPrefix(i, j) == scheme + "//" + sub + "vimeo.com";
    if i == 0 {
      assert HostPrefix(i, j)[0] == '/';
    } else {
      assert HostPrefix(i, j)[4] == scheme[4];
    }
  }

  /** "http:" cannot start inside the host part or at the character after it. */
  lemma NoOccurrenceInHost(s: string, p: string, e: nat)
    requires 0 < e == |p| <= |s| && s[..e] == p && (e == |s| || s[e] == '/')
    requires forall k :: 0 < k < e ==> p[k] != 'h'
    requires p[0] != 'h' || (e > 4 && p[4] != ':')
    ensures IndexOf(s, "http:").None? || IndexOf(s, "http:").value > e
  {
    if IndexOf(s, "http:").Some? {
      var k := IndexOf(s, "http:").value;
      assert s[k..k + 5][0] == s[k] == 'h';
      assert s[k..k + 5][4] == s[k + 4] == ':';
    }
  }

  /** With a truthy id, the url plays no part. */
  lemma GetVimeoUrlIdTakesPrecedence(id: JsValue, url1: JsValue, url2: JsValue)
    requires Truthy(id)
    ensures GetVimeoUrl(EmbedParameters(id, url1)) == GetVimeoUrl(EmbedParameters(id, url2))
  {
  }

  /** An integral id or url gives the vimeo.com page of that number. */
  lemma GetVimeoUrlOfInteger(p: EmbedParameters)
    requires Truthy(IdOrUrl(p)) && IsInteger(IdOrUrl(p))
    ensures GetVimeoUrl(p) == Success("https://vimeo.com/" + IntegerText(IdOrUrl(p)))
  {
  }

  /** A Vimeo URL that is not an integer comes back with its first "http:" made "https:". */
  lemma GetVimeoUrlOfVimeoUrl(p: EmbedParameters)
    requires Truthy(IdOrUrl(p)) && !IsInteger(IdOrUrl(p))
    requires IdOrUrl(p).Str? && IsVimeoUrl(IdOrUrl(p).s)
    ensures GetVimeoUrl(p) == Success(ReplaceFirst(IdOrUrl(p).s, "http:", "https:"))
  {
  }

  /** A plain-http Vimeo URL comes back with its scheme upgraded and nothing else changed. */
  lemma GetVimeoUrlUpgradesHttp(rest: string)
    requires IsVimeoUrl("http:" + rest)
    ensures GetVimeoUrl(EmbedParameters(Undefined, Str("http:" + rest))) == Success("https:" + rest)
  {
    var s := "http:" + rest;
    assert OccursAt(s, "http:", 0);
    IntegerTextHeadStr(s);
  }

  /** An https Vimeo URL comes back unchanged. */
  lemma GetVimeoUrlKeepsHttps(rest: string)
    requires IsVimeoUrl("https:" + rest) && IndexOf("https:" + rest, "http:").None?
    ensures GetVimeoUrl(EmbedParameters(Undefined, Str("https:" + rest))) == Success("https:" + rest)
  {
    IntegerTextHeadStr("https:" + rest);
  }

  lemma IntegerTextHeadStr(s: string)
    requires |s| > 0 && s[0] == 'h'
    ensures !IsInteger(Str(s))
  {
    if IsInteger(Str(s)) {
      IntegerTextHead(Str(s));
    }
  }

  /**
   * The TypeErrors: a truthy value that is neither an integer nor a Vimeo
   * URL is reported as an invalid id when the id was given, and as a bad
   * url otherwise.
   */
  lemma GetVimeoUrlTypeErrors(p: EmbedParameters)
    ensures GetVimeoUrl(p) == Failure(InvalidVideoId(p.id)) <==>
      Truthy(p.id) && !IsInteger(p.id) && !(p.id.Str? && IsVimeoUrl(p.id.s))
    ensures GetVimeoUrl(p) == Failure(NotVimeoUrl(p.url)) <==>
      !Truthy(p.id) && Truthy(p.url) && !IsInteger(p.url) && !(p.url.Str? && IsVimeoUrl(p.url.s))
  {
  }

  lemma GetVimeoUrlErrorExamples()
    ensures GetVimeoUrl(EmbedParameters(Undefined, Undefined)) == Failure(MissingIdOrUrl)
    ensures GetVimeoUrl(EmbedParameters(Str("string"), Undefined)) == Failure(InvalidVideoId(Str("string")))
  {
    NotIntegerHead("string");
    MismatchNotPrefix("string", "https:", 0);
    MismatchNotPrefix("string", "http:", 0);
    MismatchNotPrefix("string", "//", 0);
  }

  /** A URL on another host is refused: as an id, as an invalid id; as a url, as not a Vimeo URL. */
  lemma GetVimeoUrlOtherHostExamples()
    ensures GetVimeoUrl(EmbedParameters(Str("https://notvimeo.com/2"), Undefined)) == Failure(InvalidVideoId(Str("https://notvimeo.com/2")))
    ensures GetVimeoUrl(EmbedParameters(Undefined, Str("https://notvimeo.com/2"))) == Failure(NotVimeoUrl(Str("https://notvimeo.com/2")))
  {
    var u := "https://notvimeo.com/2";
    assert "https://notvimeo" + ".com/2" == u;
    NotVimeoDotCom(".com/2");
    IntegerTextHeadStr(u);
  }

  /** A string that starts with a letter is not an integer. */
  lemma NotIntegerHead(s: string)
    requires |s| > 0 && 'a' <= s[0] <= 'z'
    ensures !IsInteger(Str(s))
  {
    var u := Unsigned(s);
    assert u == s;
    match IndexOf(u, ".")
    case None =>
    case Some(k) =>
      if k > 0 {
        assert u[..k][0] == u[0];
      }
  }
}
