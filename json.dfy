/**
 * The JSON-LD script text as its parsed value, and the array built-ins the
 * markup builders apply to it: `Array.isArray(v) ? v.slice() : new Array(v)`
 * and `.some(item => item.hasOwnProperty('hasPart'))`.
 */
module JsonValue {
  import opened Wrappers

  /** A value JSON.parse can return; numbers are exact. */
  datatype Json =
    | JNull
    | JBool(b: bool)
    | JNum(n: real)
    | JStr(s: string)
    | JArr(items: seq<Json>)
    | JObj(members: seq<(string, Json)>)

  /**
   * The text of a script element: either text JSON.parse accepts, kept as
   * the value it parses to, or text it rejects. JSON.stringify of a value
   * gives text that parses back to that value.
   */
  datatype ScriptText = Parsed(value: Json) | Malformed

  /** The exceptions the builders can raise. */
  datatype JsError = SyntaxError | RangeError | TypeError | ReferenceError

  /** An element of a JavaScript array: `new Array(n)` leaves n holes. */
  datatype Slot = Hole | Item(value: Json)

  predicate HasKey(members: seq<(string, Json)>, key: string) {
    exists i :: 0 <= i < |members| && members[i].0 == key
  }

  /** The value JSON.parse keeps for a key: that of its last member, if any. */
  function Lookup(members: seq<(string, Json)>, key: string): (r: Option<Json>)
    ensures r.Some? <==> HasKey(members, key)
    decreases |members|
  {
    if members == [] then None
    else if members[|members| - 1].0 == key then Some(members[|members| - 1].1)
    else
      assert forall i :: 0 <= i < |members| - 1 ==> members[..|members| - 1][i] == members[i];
      Lookup(members[..|members| - 1], key)
  }

  /** A member of an object, looked up as JSON.parse keeps it. */
  function Member(v: Json, key: string): Option<Json> {
    if v.JObj? then Lookup(v.members, key) else None
  }

  /** A key written once is looked up as the value written with it. */
  lemma {:induction false} LookupUnique(members: seq<(string, Json)>, key: string, i: nat)
    requires i < |members| && members[i].0 == key
    requires forall k :: 0 <= k < |members| && k != i ==> members[k].0 != key
    ensures Lookup(members, key) == Some(members[i].1)
    decreases |members|
  {
    var n := |members| - 1;
    if i < n {
      var front := members[..n];
      forall k | 0 <= k < |front| && k != i ensures front[k].0 != key {
        assert front[k] == members[k];
      }
      LookupUnique(front, key, i);
    }
  }

  /** The largest length `new Array(n)` accepts, 2^32 - 1. */
  const MaxArrayLength: int := 0xFFFF_FFFF

  /**
   * `Array.isArray(v) ? v.slice() : new Array(v)`. An array is copied; a
   * number n that is a valid length gives n holes and any other number a
   * RangeError; every other value becomes the one element of a new array.
   */
  function WrapParsed(v: Json): (r: Result<seq<Slot>, JsError>)
    ensures v.JArr? ==> r.Success? && |r.value| == |v.items|
    ensures v.JArr? ==> forall i :: 0 <= i < |v.items| ==> r.value[i] == Item(v.items[i])
    ensures !v.JArr? && !v.JNum? ==> r == Success([Item(v)])
    ensures v.JNum? ==> (r.Success? <==> v.n.Floor as real == v.n && 0 <= v.n.Floor <= MaxArrayLength)
    ensures v.JNum? && r.Success? ==> |r.value| == v.n.Floor && forall i :: 0 <= i < |r.value| ==> r.value[i] == Hole
    ensures r.Failure? ==> r.error == RangeError
  {
    match v
    case JArr(items) => Success(seq(|items|, i requires 0 <= i < |items| => Item(items[i])))
    case JNum(n) =>
      if n.Floor as real == n && 0 <= n.Floor <= MaxArrayLength
      then Success(seq(n.Floor, _ => Hole))
      else Failure(RangeError)
    case _ => Success([Item(v)])
  }

  /**
   * `item.hasOwnProperty('hasPart')` for a present element: null throws,
   * and so does an object whose own "hasOwnProperty" member (never a
   * function in parsed JSON) shadows the method; other values answer
   * whether they own a "hasPart" member.
   */
  function OwnsHasPart(v: Json): (r: Result<bool, JsError>)
    ensures r.Failure? <==> v.JNull? || (v.JObj? && HasKey(v.members, "hasOwnProperty"))
    ensures r.Failure? ==> r.error == TypeError
    ensures r.Success? ==> (r.value <==> v.JObj? && HasKey(v.members, "hasPart"))
  {
    match v
    case JNull => Failure(TypeError)
    case JObj(members) =>
      if HasKey(members, "hasOwnProperty") then Failure(TypeError)
      else Success(HasKey(members, "hasPart"))
    case _ => Success(false)
  }

  /** An element that `.some` stops at: one that throws or answers true. */
  predicate Decides(s: Slot) {
    s.Item? && OwnsHasPart(s.value) != Success(false)
  }

  /** The index of the first element `.some` stops at, or the length when there is none. */
  function FirstDecisive(slots: seq<Slot>): (k: nat)
    ensures k <= |slots|
    ensures forall j :: 0 <= j < k ==> !Decides(slots[j])
    ensures k < |slots| ==> Decides(slots[k])
  {
    if slots == [] then 0
    else if Decides(slots[0]) then 0
    else 1 + FirstDecisive(slots[1..])
  }

  /**
   * `.some(item => item.hasOwnProperty('hasPart'))`: holes are skipped and
   * the first element that throws or answers true settles the result.
   */
  function SomeHasPart(slots: seq<Slot>): (r: Result<bool, JsError>)
    ensures var k := FirstDecisive(slots);
      (k == |slots| ==> r == Success(false)) &&
      (k < |slots| ==> r == OwnsHasPart(slots[k].value) && r != Success(false))
  {
    if slots == [] then Success(false)
    else if Decides(slots[0]) then OwnsHasPart(slots[0].value)
    else SomeHasPart(slots[1..])
  }

  /** JSON.stringify writes a hole as null. */
  function SlotValue(s: Slot): Json {
    match s
    case Hole => JNull
    case Item(v) => v
  }

  /** The values an array of slots holds once written out and parsed back. */
  function Serialize(slots: seq<Slot>): (r: seq<Json>)
    ensures |r| == |slots|
    ensures forall i :: 0 <= i < |slots| ==> r[i] == SlotValue(slots[i])
  {
    seq(|slots|, i requires 0 <= i < |slots| => SlotValue(slots[i]))
  }

  /** An entry that carries chapters. */
  predicate IsChaptered(v: Json) {
    v.JObj? && HasKey(v.members, "hasPart")
  }

  /** How many entries of a list carry chapters. */
  function ChapteredCount(items: seq<Json>): (n: nat)
    ensures n <= |items|
  {
    if items == [] then 0
    else (if IsChaptered(items[0]) then 1 else 0) + ChapteredCount(items[1..])
  }

  lemma {:induction false} ChapteredCountAppend(a: seq<Json>, b: seq<Json>)
    ensures ChapteredCount(a + b) == ChapteredCount(a) + ChapteredCount(b)
    decreases |a|
  {
    if a == [] {
      assert a + b == b;
    } else {
      assert (a + b)[1..] == a[1..] + b;
      ChapteredCountAppend(a[1..], b);
    }
  }

  lemma {:induction false} ChapteredCountZero(items: seq<Json>)
    ensures ChapteredCount(items) == 0 <==> forall i :: 0 <= i < |items| ==> !IsChaptered(items[i])
    decreases |items|
  {
    if items != [] {
      ChapteredCountZero(items[1..]);
      assert forall i :: 1 <= i < |items| ==> items[i] == items[1..][i - 1];
    }
  }

  /** An element the hasPart probe would throw on. */
  predicate Throws(v: Json) {
    OwnsHasPart(v).Failure?
  }

  /**
   * A scan that ends without throwing finds chapters exactly when some
   * entry of the serialized list carries them.
   */
  lemma SomeHasPartCounts(slots: seq<Slot>)
    requires SomeHasPart(slots).Success?
    ensures SomeHasPart(slots).value <==> ChapteredCount(Serialize(slots)) > 0
  {
    var items := Serialize(slots);
    ChapteredCountZero(items);
    var k := FirstDecisive(slots);
    if SomeHasPart(slots).value {
      assert IsChaptered(items[k]);
    } else {
      forall i | 0 <= i < |items| ensures !IsChaptered(items[i]) {
        assert !Decides(slots[i]);
      }
    }
  }

  /** A scan over a list no element of which throws never throws. */
  lemma SomeHasPartWithoutThrowers(slots: seq<Slot>)
    requires forall i :: 0 <= i < |slots| ==> !Throws(SlotValue(slots[i])) || slots[i] == Hole
    ensures SomeHasPart(slots).Success?
  {
    var k := FirstDecisive(slots);
    if k < |slots| {
      assert !Throws(SlotValue(slots[k]));
    }
  }

  /** A copied array serializes back to the array it was copied from. */
  lemma SerializeWrappedArray(items: seq<Json>)
    ensures Serialize(WrapParsed(JArr(items)).value) == items
  {
  }
}
