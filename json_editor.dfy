/** The scene-settings editor: it fills in defaults for null options, edits one
    option at a time, and picks the input widget for each option. */
module JsonEditor {
  import opened JsString

  /** An option value of the viewer's settings object. `Null` and `Undefined`
      are both what `== null` accepts. */
  datatype OptValue = Null | Undefined | Bool(b: bool) | Number(x: real) | Text(s: string) | Numbers(items: seq<real>)
  {
    predicate IsNullish() { Null? || Undefined? }
  }

  type Options = map<string, OptValue>

  /** `toLowerCase` on the ASCII letters. */
  function LowerChar(c: char): char
  {
    if 'A' <= c <= 'Z' then (c as int + 32) as char else c
  }

  function Lower(s: string): (r: string)
    ensures |r| == |s| && forall i :: 0 <= i < |s| ==> r[i] == LowerChar(s[i])
  {
    seq(|s|, i requires 0 <= i < |s| => LowerChar(s[i]))
  }

  predicate EndsWith(s: string, suffix: string)
  {
    |suffix| <= |s| && s[|s| - |suffix|..] == suffix
  }

  /** White, the default colour. */
  const White: OptValue := Numbers([1.0, 1.0, 1.0, 1.0])

  /** The value a null option is replaced with. */
  function DefaultFor(key: string): (v: OptValue)
    ensures !v.IsNullish()
  {
    if Contains(Lower(key), "color") then White else Text("")
  }

  /** The option after the defaults pass: null values get a default, others stay. */
  function NormalizedValue(key: string, v: OptValue): OptValue
  {
    if v.IsNullish() then DefaultFor(key) else v
  }

  /** The object the effect stores: every key kept, null values replaced. */
  function Normalized(m: Options): (r: Options)
    ensures r.Keys == m.Keys
    ensures forall k :: k in m ==> r[k] == NormalizedValue(k, m[k])
  {
    map k | k in m :: NormalizedValue(k, m[k])
  }

  /** The effect's `forEach` over a copy of the initial object. */
  method Normalize(initial: Options) returns (updated: Options)
    ensures updated == Normalized(initial)
  {
    updated := initial;
    var pending := initial.Keys;
    while pending != {}
      invariant pending <= initial.Keys
      invariant updated.Keys == initial.Keys
      invariant forall k :: k in initial && k !in pending ==> updated[k] == NormalizedValue(k, initial[k])
      invariant forall k :: k in pending ==> updated[k] == initial[k]
      decreases pending
    {
      var key :| key in pending;
      if updated[key].IsNullish() {
        updated := updated[key := DefaultFor(key)];
      }
      pending := pending - {key};
    }
  }

  /** Normalising keeps the key set, keeps every non-null value, gives null colour
      keys white and other null keys the empty string. */
  lemma NormalizedDefaults(m: Options, key: string)
    requires key in m
    ensures key in Normalized(m)
    ensures !m[key].IsNullish() ==> Normalized(m)[key] == m[key]
    ensures m[key].IsNullish() && Contains(Lower(key), "color") ==> Normalized(m)[key] == White
    ensures m[key].IsNullish() && !Contains(Lower(key), "color") ==> Normalized(m)[key] == Text("")
  {
  }

  /** No value is null after normalising, so a second pass changes nothing. */
  lemma NormalizeIdempotent(m: Options)
    ensures forall k :: k in Normalized(m) ==> !Normalized(m)[k].IsNullish()
    ensures Normalized(Normalized(m)) == Normalized(m)
  {
  }

  /** What a change handler stores and forwards to `onJsonChange`. */
  datatype Change = Change(updated: Options, key: string, value: OptValue)

  /** The stored object differs from `obj` in the changed key only, which now holds
      the forwarded value. */
  predicate ChangesOnly(obj: Options, c: Change)
  {
    && c.updated.Keys == obj.Keys + {c.key}
    && c.updated[c.key] == c.value
    && forall k :: k in obj && k != c.key ==> c.updated[k] == obj[k]
  }

  /** `{ ...jsonObject, [key]: value }`, the common core of the three handlers. */
  function Edit(obj: Options, key: string, value: OptValue): (c: Change)
    ensures c.key == key && c.value == value && ChangesOnly(obj, c)
  {
    Change(obj[key := value], key, value)
  }

  /** `handleChange`: a text field's new value. */
  function HandleChange(obj: Options, key: string, text: string): (c: Change)
    ensures c.key == key && c.value == Text(text) && ChangesOnly(obj, c)
  {
    Edit(obj, key, Text(text))
  }

  /** `handleColorChange`: the picker's colour array. */
  function HandleColorChange(obj: Options, key: string, colorArray: seq<real>): (c: Change)
    ensures c.key == key && c.value == Numbers(colorArray) && ChangesOnly(obj, c)
  {
    Edit(obj, key, Numbers(colorArray))
  }

  /** `handleBooleanChange`: the switch's checked state. */
  function HandleBooleanChange(obj: Options, key: string, checked: bool): (c: Change)
    ensures c.key == key && c.value == Bool(checked) && ChangesOnly(obj, c)
  {
    Edit(obj, key, Bool(checked))
  }

  /** Putting an existing key's old value back undoes an edit. */
  lemma EditUndo(obj: Options, key: string, value: OptValue)
    requires key in obj
    ensures Edit(Edit(obj, key, value).updated, key, obj[key]).updated == obj
  {
    var back := Edit(Edit(obj, key, value).updated, key, obj[key]).updated;
    assert back.Keys == obj.Keys;
  }

  /** The input each option is shown with. */
  datatype Widget = Switch | ColorPicker | TextField

  function FieldKind(key: string, value: OptValue): (w: Widget)
    ensures w == Switch <==> value.Bool?
    ensures w == ColorPicker <==> !value.Bool? && EndsWith(Lower(key), "color")
  {
    if value.Bool? then Switch
    else if EndsWith(Lower(key), "color") then ColorPicker
    else TextField
  }

  /** A null option that is shown with a colour picker has received a colour. */
  lemma PickerOptionsGetColorDefault(m: Options, key: string)
    requires key in m && m[key].IsNullish()
    requires FieldKind(key, Normalized(m)[key]) == ColorPicker
    ensures Normalized(m)[key] == White
  {
    var low := Lower(key);
    assert OccursAt(low, "color", |low| - 5);
  }

  /** The converse does not hold: a null option whose name contains "color" without
      ending in it receives a colour yet is shown as a text field. */
  lemma ColorDefaultInTextField()
    ensures var m := map["colorbarHeight" := Null];
            Normalized(m)["colorbarHeight"] == White
            && FieldKind("colorbarHeight", Normalized(m)["colorbarHeight"]) == TextField
  {
    var low := Lower("colorbarHeight");
    assert low == "colorbarheight";
    assert OccursAt(low, "color", 0);
  }
}
