/**
 * Turning a WebPPL address into a call stack of source positions, and
 * trimming and cleaning the JavaScript stack shown to the user.
 */
module ErrorStack {
  import opened Wrappers
  import opened JsString
  import opened NumberText

  /** Where a call site starts in the WebPPL source (`addressMap[id]`). */
  datatype SourceLoc = SourceLoc(source: string, line: int, column: int, name: Option<string>)

  /** A stack entry; `id` is set on entries made from an address. */
  datatype Entry = Entry(fileName: string, lineNumber: int, columnNumber: int, native: bool, webppl: bool,
                         name: Option<string>, id: Option<string>)

  /** The value an error handler receives: an `Error` instance with the fields WebPPL adds, or anything else. */
  datatype Thrown =
    | ErrorObject(message: string, sourceMap: Option<string>, wpplCallStack: Option<seq<Entry>>, wpplRuntimeError: bool)
    | OtherValue(text: string)

  /** The pieces of a split address after the first, with the `_` put back. */
  function Prefixed(pieces: seq<string>): (r: seq<string>)
    ensures |r| == |pieces| && forall k :: 0 <= k < |r| ==> r[k] == "_" + pieces[k]
  {
    if pieces == [] then [] else ["_" + pieces[0]] + Prefixed(pieces[1..])
  }

  function Reversed<T>(s: seq<T>): (r: seq<T>)
    ensures |r| == |s| && forall k :: 0 <= k < |s| ==> r[k] == s[|s| - 1 - k]
  {
    if s == [] then [] else Reversed(s[1..]) + [s[0]]
  }

  /** `addressToStack(address)`: the call-site ids of an address, innermost first; none for no address. */
  function AddressToStack(address: Option<string>): seq<string> {
    if address.None? then []
    else Reversed(Prefixed(Split(address.value, '_')[1..]))
  }

  /** The address an execution builds by appending `_id` for each call site it enters. */
  function AddressOf(ids: seq<string>): string {
    if ids == [] then "" else AddressOf(ids[..|ids| - 1]) + "_" + ids[|ids| - 1]
  }

  /** An address is the ids joined with `_`, after an empty first piece. */
  lemma {:induction false} AddressIsJoin(ids: seq<string>)
    ensures AddressOf(ids) == Join([""] + ids, '_')
    decreases |ids|
  {
    if ids != [] {
      var init := ids[..|ids| - 1];
      AddressIsJoin(init);
      JoinSnoc([""] + init, ids[|ids| - 1], '_');
      assert [""] + init + [ids[|ids| - 1]] == [""] + ids;
    }
  }

  /** Joining with one more piece at the end appends the separator and that piece. */
  lemma {:induction false} JoinSnoc(parts: seq<string>, x: string, c: char)
    requires |parts| >= 1
    ensures Join(parts + [x], c) == Join(parts, c) + [c] + x
    decreases |parts|
  {
    if |parts| == 1 {
      assert (parts + [x])[1..] == [x];
    } else {
      JoinSnoc(parts[1..], x, c);
      assert (parts + [x])[1..] == parts[1..] + [x];
    }
  }

  /** The stack of an address built from call-site ids is those ids, innermost first. */
  lemma {:induction false} AddressRoundTrip(ids: seq<string>)
    requires forall k :: 0 <= k < |ids| ==> '_' !in ids[k]
    ensures AddressToStack(Some(AddressOf(ids))) == Reversed(Prefixed(ids))
  {
    AddressIsJoin(ids);
    SplitJoin([""] + ids, '_');
    assert ([""] + ids)[1..] == ids;
  }

  /** For example, the address `_1_2` gives the stack `_2`, `_1`. */
  lemma {:induction false} AddressExample(address: string)
    requires address == "_1_2"
    ensures AddressToStack(Some(address)) == ["_2", "_1"]
  {
    var ids := ["1", "2"];
    ExampleAddress(address);
    assert '_' !in ids[0] && '_' !in ids[1];
    AddressRoundTrip(ids);
    var r := Reversed(Prefixed(ids));
    assert |r| == 2 && r[0] == "_2" && r[1] == "_1";
  }

  lemma {:induction false} ExampleAddress(address: string)
    requires address == "_1_2"
    ensures AddressOf(["1", "2"]) == address
  {
    var ids := ["1", "2"];
    assert ids[..1] == ["1"];
    assert ["1"][..0] == [];
    assert AddressOf(["1"]) == "_1";
  }

  /** The entry made for a call site found in the address map. */
  function EntryFor(id: string, loc: SourceLoc): Entry {
    Entry(loc.source, loc.line, loc.column, false, true, loc.name, Some(id))
  }

  /** The entries for the ids the address map knows, in order; the others are dropped. */
  function KnownEntries(ids: seq<string>, addressMap: map<string, SourceLoc>): (r: seq<Entry>)
    ensures |r| <= |ids|
    ensures forall k :: 0 <= k < |r| ==>
      && r[k].id.Some? && r[k].id.value in addressMap
      && r[k] == EntryFor(r[k].id.value, addressMap[r[k].id.value])
  {
    if ids == [] then []
    else
      var here := if ids[0] in addressMap then [EntryFor(ids[0], addressMap[ids[0]])] else [];
      here + KnownEntries(ids[1..], addressMap)
  }

  /** Known entries of two stretches of ids are those of the first followed by those of the second. */
  lemma {:induction false} KnownEntriesAppend(a: seq<string>, b: seq<string>, addressMap: map<string, SourceLoc>)
    ensures KnownEntries(a + b, addressMap) == KnownEntries(a, addressMap) + KnownEntries(b, addressMap)
    decreases |a|
  {
    if a == [] {
      assert a + b == b;
    } else {
      KnownEntriesAppend(a[1..], b, addressMap);
      assert (a + b)[1..] == a[1..] + b;
    }
  }

  /** A single id gives its entry when the map knows it and nothing otherwise. */
  lemma {:induction false} KnownEntriesSingle(id: string, addressMap: map<string, SourceLoc>)
    ensures KnownEntries([id], addressMap) == if id in addressMap then [EntryFor(id, addressMap[id])] else []
  {
    assert [id][1..] == [];
  }

  /** `addressToWpplCallStack(address, addressMap)`. */
  function AddressToWpplCallStack(address: Option<string>, addressMap: map<string, SourceLoc>): seq<Entry> {
    KnownEntries(AddressToStack(address), addressMap)
  }

  /** With every call site known, the call stack has one entry per call site. */
  lemma {:induction false} AllKnownKept(ids: seq<string>, addressMap: map<string, SourceLoc>)
    requires forall k :: 0 <= k < |ids| ==> ids[k] in addressMap
    ensures |KnownEntries(ids, addressMap)| == |ids|
    decreases |ids|
  {
    if ids != [] {
      AllKnownKept(ids[1..], addressMap);
    }
  }

  /** `extendError`: only an `Error` gets the source map, the call stack and the runtime flag. */
  function ExtendError(error: Thrown, sourceMap: string, address: Option<string>, addressMap: map<string, SourceLoc>): (r: Thrown)
    ensures error.OtherValue? ==> r == error
    ensures error.ErrorObject? ==>
      && r.ErrorObject? && r.message == error.message && r.sourceMap == Some(sourceMap)
      && r.wpplCallStack == Some(AddressToWpplCallStack(address, addressMap)) && r.wpplRuntimeError
  {
    match error
    case ErrorObject(message, _, _, _) =>
      ErrorObject(message, Some(sourceMap), Some(AddressToWpplCallStack(address, addressMap)), true)
    case OtherValue(_) => error
  }

  /**
   * Extending an error again overwrites what the first extension set: the
   * last handler's source map and call stack win, so extending is idempotent.
   */
  lemma {:induction false} ExtendErrorLastWins(error: Thrown, sourceMap1: string, address1: Option<string>, addressMap1: map<string, SourceLoc>,
                                               sourceMap2: string, address2: Option<string>, addressMap2: map<string, SourceLoc>)
    ensures ExtendError(ExtendError(error, sourceMap1, address1, addressMap1), sourceMap2, address2, addressMap2)
      == ExtendError(error, sourceMap2, address2, addressMap2)
  {
  }

  /** The index of the first WebPPL entry, or -1 (`_.findIndex`). */
  function FirstWebppl(stack: seq<Entry>): (ix: int)
    ensures -1 <= ix < |stack|
    ensures ix == -1 <==> forall k :: 0 <= k < |stack| ==> !stack[k].webppl
    ensures ix >= 0 ==> stack[ix].webppl && forall k :: 0 <= k < ix ==> !stack[k].webppl
  {
    if stack == [] then -1
    else if stack[0].webppl then 0
    else var ix := FirstWebppl(stack[1..]); if ix == -1 then -1 else ix + 1
  }

  /** `filterJsStackTrace`: the entries up to and including the first WebPPL one, or the whole stack. */
  function FilterJsStackTrace(stack: seq<Entry>): (r: seq<Entry>)
    ensures |r| <= |stack| && r == stack[..|r|]
    ensures (forall k :: 0 <= k < |stack| ==> !stack[k].webppl) ==> r == stack
    ensures (exists k :: 0 <= k < |stack| && stack[k].webppl) ==>
      |r| > 0 && r[|r| - 1].webppl && forall k :: 0 <= k < |r| - 1 ==> !r[k].webppl
  {
    var ix := FirstWebppl(stack);
    if ix >= 0 then stack[..ix + 1] else stack
  }

  /** Trimming twice trims no more than once. */
  lemma {:induction false} FilterIdempotent(stack: seq<Entry>)
    ensures FilterJsStackTrace(FilterJsStackTrace(stack)) == FilterJsStackTrace(stack)
  {
    var r := FilterJsStackTrace(stack);
    if exists k :: 0 <= k < |stack| && stack[k].webppl {
      assert FirstWebppl(r) == |r| - 1;
    }
  }

  /** `filterGensym(name)`: a missing name or a compiler-generated `_result...` name becomes null. */
  function FilterGensym(name: Option<string>): (r: Option<string>)
    ensures r.Some? <==> name.Some? && !StartsWith(name.value, "_result")
    ensures r.Some? ==> r == name
  {
    if name.None? || (|name.value| >= 7 && name.value[..7] == "_result") then None else name
  }

  /** Filtering a name twice is filtering it once. */
  lemma {:induction false} FilterGensymIdempotent(name: Option<string>)
    ensures FilterGensym(FilterGensym(name)) == FilterGensym(name)
  {
  }
}
