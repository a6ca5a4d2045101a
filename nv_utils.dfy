/** The renderer-side helpers of the `nvUtils` namespace: `removeExtension`, and the
    wrappers that forward to the `NIIVUE` bridge object only when the bridge member
    they need is a function. */
module NvUtils {
  import opened JsString
  import opened Common

  /** `str.split(ext)`, drop the last piece, join the rest with "". */
  function RemoveExtension(str: string, ext: string): string
  {
    var parts := Split(str, ext);
    if |parts| == 0 then [] else Join(parts[..|parts| - 1], [])
  }

  /** The extension `removeExtension` uses when none is given. */
  const DefaultExtension: string := ".nii"

  /** The documented example: the default extension cuts "test.nii.gz" down to "test". */
  lemma RemoveExtensionExample()
    ensures RemoveExtension("test.nii.gz", DefaultExtension) == "test"
  {
    var s := ['t', 'e', 's', 't', '.', 'n', 'i', 'i', '.', 'g', 'z'];
    var ext := ['.', 'n', 'i', 'i'];
    assert s == "test.nii.gz" && ext == DefaultExtension;
    forall i ensures OccursAt(s, ext, i) <==> i == 4 {
      if OccursAt(s, ext, i) {
        assert s[i] == s[i..i + 4][0] == '.';
        assert s[i + 1] == s[i..i + 4][1] == 'n';
      }
      if i == 4 {
        assert s[4..8] == ext;
      }
    }
    SplitFromOneOccurrence(s, ext, [], 4);
    assert s[..4] == "test";
  }

  /** When `ext` does not occur in `str` the whole string is the dropped last piece. */
  lemma RemoveExtensionAbsent(str: string, ext: string)
    requires !Contains(str, ext)
    ensures RemoveExtension(str, ext) == ""
  {
    assert OccursAt(str, [], 0);
    assert forall i :: OccursAt(str, ext, i) ==> 0 <= i <= |str|;
    SplitFromNoOccurrence(str, ext, []);
  }

  /** When `ext` occurs exactly once, at index `k`, the result is what precedes it. */
  lemma RemoveExtensionOnce(str: string, ext: string, k: nat)
    requires ext != []
    requires forall i :: OccursAt(str, ext, i) <==> i == k
    requires k + |ext| <= |str|
    ensures RemoveExtension(str, ext) == str[..k]
  {
    SplitFromOneOccurrence(str, ext, [], k);
  }

  /** In general the result is the pieces before the last occurrence with the
      separators dropped, so it is never longer than the input. */
  lemma RemoveExtensionShorter(str: string, ext: string)
    ensures |RemoveExtension(str, ext)| <= |str|
  {
    var parts := Split(str, ext);
    JoinSplit(str, ext);
    if |parts| > 0 {
      InitJoinShorter(parts, ext);
    }
  }

  lemma {:induction false} InitJoinShorter(parts: seq<string>, sep: string)
    requires |parts| > 0
    ensures |Join(parts[..|parts| - 1], [])| <= |Join(parts, sep)|
  {
    if |parts| == 2 {
      assert parts[..1] == [parts[0]];
    } else if |parts| > 2 {
      var init := parts[..|parts| - 1];
      InitJoinShorter(parts[1..], sep);
      assert init[1..] == parts[1..][..|parts| - 2];
      assert |Join(init, [])| == |parts[0]| + |Join(init[1..], [])|;
    }
  }

  // ---------------------------------------------------------------------------
  // The bridge wrappers.

  /** The values a bridge member can hold, as far as the wrappers care:
      a function is represented by the value calling it produces. */
  datatype JsValue = Undefined | Bool(b: bool) | Number(x: real) | Text(s: string) | Function(result: JsValue)

  /** The `NIIVUE` object the preload script exposes on `window`. */
  type Bridge = map<string, JsValue>

  /** `window.NIIVUE || {}`. */
  function Namespace(windowNiivue: Option<Bridge>): Bridge
  {
    if windowNiivue.Some? then windowNiivue.value else map[]
  }

  /** `NIIVUE[name]`: an absent member reads as undefined. */
  function Member(bridge: Bridge, name: string): JsValue
  {
    if name in bridge then bridge[name] else Undefined
  }

  predicate IsFunction(v: JsValue)
  {
    v.Function?
  }

  /** Calling a value: a non-function throws a TypeError. */
  datatype Call = Returned(value: JsValue) | TypeError

  function Invoke(v: JsValue): Call
  {
    if IsFunction(v) then Returned(v.result) else TypeError
  }

  /** `openFileDialog`, `openSaveFileDialog`, `openSaveMosaicFileDialog`,
      `openLoadMosaicFileDialog`, `getCommsInfo`: call the member when it is a
      function, otherwise hand back the member itself. */
  function CallOrGet(bridge: Bridge, name: string): (r: JsValue)
    ensures IsFunction(Member(bridge, name)) ==> Invoke(Member(bridge, name)) == Returned(r)
    ensures !IsFunction(Member(bridge, name)) ==> r == Member(bridge, name)
  {
    var m := Member(bridge, name);
    if IsFunction(m) then m.result else m
  }

  /** `onGetOpt`: the bridge's answer when the member is a function, otherwise false. */
  function OnGetOpt(bridge: Bridge): (r: JsValue)
    ensures !IsFunction(Member(bridge, "onGetOpt")) ==> r == Bool(false)
    ensures IsFunction(Member(bridge, "onGetOpt")) ==> Invoke(Member(bridge, "onGetOpt")) == Returned(r)
  {
    var m := Member(bridge, "onGetOpt");
    if IsFunction(m) then m.result else Bool(false)
  }

  /** `onLoadVolumes`, `onSetView`, `onCloseAllVolumes` and the other registration
      wrappers: the callback reaches the bridge exactly when the member is a function. */
  function Register(bridge: Bridge, name: string): (registered: bool)
    ensures registered <==> Invoke(Member(bridge, name)) != TypeError
  {
    IsFunction(Member(bridge, name))
  }

  /** `saveTextFile` and `loadTextFile` call the member without the guard. */
  function CallUnguarded(bridge: Bridge, name: string): (r: Call)
    ensures r == TypeError <==> !IsFunction(Member(bridge, name))
  {
    Invoke(Member(bridge, name))
  }

  /** With no bridge on `window` every guarded wrapper falls back: the getters give
      undefined, `onGetOpt` gives false, nothing is registered, and the unguarded
      calls throw. */
  lemma NoBridge(name: string)
    ensures CallOrGet(Namespace(None), name) == Undefined
    ensures OnGetOpt(Namespace(None)) == Bool(false)
    ensures !Register(Namespace(None), name)
    ensures CallUnguarded(Namespace(None), name) == TypeError
  {
  }
}
