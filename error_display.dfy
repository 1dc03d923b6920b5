/**
 * The string helpers used to lay out the source context of an error in the
 * terminal (`repeatString`, `pad`, `getArrow`), and the searches that pick
 * the stack entries whose code is shown.
 */
module ErrorDisplay {
  import opened Wrappers
  import opened JsString
  import ES = ErrorStack

  /** `count` empty strings: `Array(count)` as `join` sees it. */
  function Holes(count: nat): (r: seq<string>)
    ensures |r| == count && forall k :: 0 <= k < count ==> r[k] == ""
  {
    seq(count, _ => "")
  }

  /** `repeatString(c, count)`: `Array(count).join(c)`. */
  function RepeatString(c: char, count: nat): string {
    Join(Holes(count), c)
  }

  /** Prepending one more copy is appending one more copy. */
  lemma {:induction false} RepeatCons(str: string, n: nat)
    ensures str + Repeat(str, n) == Repeat(str, n) + str
    decreases n
  {
    if n > 0 {
      RepeatCons(str, n - 1);
      assert str + Repeat(str, n) == (str + Repeat(str, n - 1)) + str;
    }
  }

  /** `repeatString(c, count)` is count - 1 copies of c: the separators between count empty strings. */
  lemma {:induction false} RepeatStringCopies(c: char, count: nat)
    ensures count > 0 ==> RepeatString(c, count) == Repeat([c], count - 1)
    ensures count == 0 ==> RepeatString(c, count) == ""
    decreases count
  {
    if count > 1 {
      RepeatStringCopies(c, count - 1);
      assert Holes(count)[1..] == Holes(count - 1);
      RepeatCons([c], count - 2);
      assert RepeatString(c, count) == "" + [c] + RepeatString(c, count - 1);
    }
  }

  /**
   * `pad(p, str, padLeft)`: no string gives the padding itself; otherwise the
   * last `p.length` characters of `p + str`, or the first `p.length` of
   * `str + p`. `slice(-0)` is `slice(0)`, so an empty padding on the left
   * keeps all of `p + str`.
   */
  function Pad(p: string, str: Option<string>, padLeft: bool): string {
    if str.None? then p
    else if padLeft then
      var t := p + str.value;
      if |p| == 0 then t else t[|t| - |p|..]
    else (str.value + p)[..|p|]
  }

  /** A present string is fitted to the width of a non-empty padding. */
  lemma {:induction false} PadWidth(p: string, s: string, padLeft: bool)
    requires |p| > 0
    ensures |Pad(p, Some(s), padLeft)| == |p|
  {
  }

  /** Left padding a short string fills in front of it with the end of the padding; a long one keeps its end. */
  lemma {:induction false} PadLeft(p: string, s: string)
    requires |p| > 0
    ensures |s| <= |p| ==> Pad(p, Some(s), true) == p[|s|..] + s
    ensures |s| >= |p| ==> Pad(p, Some(s), true) == s[|s| - |p|..]
  {
    var t := p + s;
    if |s| <= |p| {
      assert t[|t| - |p|..] == p[|s|..] + s;
    } else {
      assert t[|t| - |p|..] == s[|s| - |p|..];
    }
  }

  /** Right padding a short string fills after it with the start of the padding; a long one keeps its start. */
  lemma {:induction false} PadRight(p: string, s: string)
    ensures |s| <= |p| ==> Pad(p, Some(s), false) == s + p[..|p| - |s|]
    ensures |s| >= |p| ==> Pad(p, Some(s), false) == s[..|p|]
  {
    var t := s + p;
    if |s| <= |p| {
      assert t[..|p|] == s + p[..|p| - |s|];
    } else {
      assert t[..|p|] == s[..|p|];
    }
  }

  /** The empty padding on the left keeps the whole string. */
  lemma {:induction false} EmptyPadLeft(s: string)
    ensures Pad("", Some(s), true) == s
  {
    assert "" + s == s;
  }

  /** `getArrow(length)`. */
  function GetArrow(length: nat): string {
    "  " + RepeatString('-', length + 1) + "^\n"
  }

  /** The arrow is two spaces, `length` dashes, a caret and a newline. */
  lemma {:induction false} ArrowShape(length: nat)
    ensures GetArrow(length) == "  " + Repeat("-", length) + "^\n"
    ensures |GetArrow(length)| == length + 4
  {
    RepeatStringCopies('-', length + 1);
  }

  /** The index of the first entry that passes the test, if any (`_.findWhere`). */
  function FindWhere(stack: seq<ES.Entry>, test: ES.Entry -> bool): (r: Option<nat>)
    ensures r.None? <==> forall k :: 0 <= k < |stack| ==> !test(stack[k])
    ensures r.Some? ==>
      && r.value < |stack| && test(stack[r.value])
      && forall k :: 0 <= k < r.value ==> !test(stack[k])
  {
    if stack == [] then None
    else if test(stack[0]) then Some(0)
    else
      var r := FindWhere(stack[1..], test);
      if r.None? then None else Some(r.value + 1)
  }

  /** stack[k] is the first entry from the file. */
  ghost predicate FirstWithFile(stack: seq<ES.Entry>, fileName: string, k: int) {
    0 <= k < |stack| && stack[k].fileName == fileName && forall l :: 0 <= l < k ==> stack[l].fileName != fileName
  }

  /** stack[k] is the first entry that is not native. */
  ghost predicate FirstNonNative(stack: seq<ES.Entry>, k: int) {
    0 <= k < |stack| && !stack[k].native && forall l :: 0 <= l < k ==> stack[l].native
  }

  /** `findEntryByFileName(stack, fileName)`: the first entry from that file, if any. */
  function FindEntryByFileName(stack: seq<ES.Entry>, fileName: string): (r: Option<ES.Entry>)
    ensures r.None? <==> forall k :: 0 <= k < |stack| ==> stack[k].fileName != fileName
    ensures r.Some? ==> exists k :: FirstWithFile(stack, fileName, k) && r.value == stack[k]
  {
    var i := FindWhere(stack, (e: ES.Entry) => e.fileName == fileName);
    if i.None? then None else Some(stack[i.value])
  }

  /** `findNonNativeEntry(stack)`: the first entry that is not native; an assertion fails when there is none. */
  function FindNonNativeEntry(stack: seq<ES.Entry>): (r: Result<ES.Entry>)
    ensures r.Err? <==> forall k :: 0 <= k < |stack| ==> stack[k].native
    ensures r.Ok? ==> exists k :: FirstNonNative(stack, k) && r.value == stack[k]
  {
    var i := FindWhere(stack, (e: ES.Entry) => !e.native);
    if i.None? then Err("AssertionError") else Ok(stack[i.value])
  }
}
