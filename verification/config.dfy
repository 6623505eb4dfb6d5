// The settings file: JSON values, the defaults, the recursive merge that
// fills in missing keys on load, and the clamping setters.

module Config {
  import opened Options

  /** A JSON value as `json.load` returns it. Numbers keep Python's split
      between `int` and `float`; a float is modelled as an exact real. */
  datatype Value =
    | Str(s: string)
    | Int(i: int)
    | Float(x: real)
    | Bool(b: bool)
    | Null
    | List(items: seq<Value>)
    | Obj(fields: map<string, Value>)

  const EmptyObj: Value := Obj(map[])

  const DefaultHotkeys: Value := Obj(map[
    "play_pause" := Str("Space"),
    "next_track" := Str("Ctrl+Right"),
    "prev_track" := Str("Ctrl+Left"),
    "volume_up" := Str("Ctrl+Up"),
    "volume_down" := Str("Ctrl+Down"),
    "offset_plus_50" := Str("Ctrl+]"),
    "offset_minus_50" := Str("Ctrl+["),
    "offset_plus_200" := Str("Ctrl+Shift+]"),
    "offset_minus_200" := Str("Ctrl+Shift+[")])

  const DefaultConfig: Value := Obj(map[
    "com_port" := Str(""),
    "baud_rate" := Int(115200),
    "auto_connect" := Bool(true),
    "global_offset_ms" := Int(0),
    "esp32_font_size" := Float(1.5),
    "display_mode" := Str("lyrics"),
    "lyric_font_size_px" := Int(13),
    "volume" := Float(0.7),
    "hotkeys" := DefaultHotkeys])

  // ----- _deep_merge -------------------------------------------------------

  /** Whether the override for `k` is merged into the default rather than
      replacing it: both sides hold a dict. */
  predicate Nested(defaults: map<string, Value>, overrides: map<string, Value>, k: string) {
    k in defaults && k in overrides && defaults[k].Obj? && overrides[k].Obj?
  }

  /** The merge stated key by key: a key only in the defaults keeps its
      default, a key whose both sides are dicts is merged recursively, and
      any other overridden key takes the override. */
  function Merged(defaults: Value, overrides: Value): (r: Value)
    requires defaults.Obj? && overrides.Obj?
    ensures r.Obj? && r.fields.Keys == defaults.fields.Keys + overrides.fields.Keys
    decreases defaults
  {
    var d := defaults.fields;
    var o := overrides.fields;
    Obj(map k | k in d.Keys + o.Keys ::
          if Nested(d, o, k) then Merged(d[k], o[k])
          else if k in o then o[k]
          else d[k])
  }

  /** `_deep_merge(defaults, overrides)`: start from a copy of the defaults
      and visit the overrides one key at a time. */
  method DeepMerge(defaults: Value, overrides: Value) returns (result: Value)
    requires defaults.Obj? && overrides.Obj?
    ensures result == Merged(defaults, overrides)
    decreases defaults
  {
    var d := defaults.fields;
    var o := overrides.fields;
    var fields := d;
    var todo := o.Keys;
    var done: set<string> := {};
    while todo != {}
      invariant todo + done == o.Keys && todo !! done
      invariant fields.Keys == d.Keys + done
      invariant forall k :: k in fields && k !in done ==> fields[k] == d[k]
      invariant forall k :: k in done ==> fields[k] == Merged(defaults, overrides).fields[k]
      decreases todo
    {
      var k :| k in todo;
      var v := o[k];
      if k in fields && fields[k].Obj? && v.Obj? {
        var sub := DeepMerge(d[k], v);
        fields := fields[k := sub];
      } else {
        fields := fields[k := v];
      }
      todo := todo - {k};
      done := done + {k};
    }
    result := Obj(fields);
  }

  /** An empty override leaves the defaults as they are. */
  lemma MergeEmpty(defaults: Value)
    requires defaults.Obj?
    ensures Merged(defaults, EmptyObj) == defaults
  {
  }

  /** A key the overrides hold comes out as the override unless both sides
      are dicts; a key they lack keeps its default. */
  lemma MergeEntry(defaults: Value, overrides: Value, k: string)
    requires defaults.Obj? && overrides.Obj?
    ensures var r := Merged(defaults, overrides).fields;
            && (k in overrides.fields && !Nested(defaults.fields, overrides.fields, k) ==> r[k] == overrides.fields[k])
            && (k !in overrides.fields && k in defaults.fields ==> r[k] == defaults.fields[k])
            && (Nested(defaults.fields, overrides.fields, k) ==>
                  r[k].Obj? && r[k].fields.Keys == defaults.fields[k].fields.Keys + overrides.fields[k].fields.Keys)
  {
  }

  /** Merging the same overrides twice changes nothing more. */
  lemma {:induction false} MergeIdempotent(defaults: Value, overrides: Value)
    requires defaults.Obj? && overrides.Obj?
    ensures Merged(Merged(defaults, overrides), overrides) == Merged(defaults, overrides)
    decreases defaults
  {
    var d := defaults.fields;
    var o := overrides.fields;
    var m := Merged(defaults, overrides);
    var mm := Merged(m, overrides);
    forall k | k in mm.fields
      ensures mm.fields[k] == m.fields[k]
    {
      if Nested(d, o, k) {
        MergeIdempotent(d[k], o[k]);
      } else if k in o && o[k].Obj? {
        MergeSelf(o[k]);
      }
    }
  }

  /** Merging an already merged result over the same defaults gives it back. */
  lemma {:induction false} MergeAbsorbs(defaults: Value, overrides: Value)
    requires defaults.Obj? && overrides.Obj?
    ensures Merged(defaults, Merged(defaults, overrides)) == Merged(defaults, overrides)
    decreases defaults
  {
    var d := defaults.fields;
    var o := overrides.fields;
    var m := Merged(defaults, overrides);
    var mm := Merged(defaults, m);
    forall k | k in mm.fields
      ensures mm.fields[k] == m.fields[k]
    {
      if Nested(d, o, k) {
        MergeAbsorbs(d[k], o[k]);
      } else if k !in o && d[k].Obj? {
        MergeSelf(d[k]);
      }
    }
  }

  /** Merging a dict into itself gives it back. */
  lemma {:induction false} MergeSelf(v: Value)
    requires v.Obj?
    ensures Merged(v, v) == v
    decreases v
  {
    var m := Merged(v, v);
    forall k | k in m.fields
      ensures m.fields[k] == v.fields[k]
    {
      if v.fields[k].Obj? {
        MergeSelf(v.fields[k]);
      }
    }
  }

  /** The value at a path of keys, if every step is a dict holding the key. */
  function At(v: Value, path: seq<string>): (r: Option<Value>)
    ensures path == [] ==> r == Some(v)
    ensures path != [] && !(v.Obj? && path[0] in v.fields) ==> r == None
    decreases |path|
  {
    if path == [] then Some(v)
    else if v.Obj? && path[0] in v.fields then At(v.fields[path[0]], path[1..])
    else None
  }

  /** Every non-dict value the overrides hold, at any depth, is in the result
      at the same path: the user's settings always win. */
  lemma {:induction false} OverrideWins(defaults: Value, overrides: Value, path: seq<string>, x: Value)
    requires defaults.Obj? && overrides.Obj?
    requires At(overrides, path) == Some(x) && !x.Obj?
    ensures At(Merged(defaults, overrides), path) == Some(x)
    decreases |path|
  {
    var k := path[0];
    var o := overrides.fields;
    var r := Merged(defaults, overrides);
    assert At(overrides, path) == At(o[k], path[1..]);
    assert At(r, path) == At(r.fields[k], path[1..]);
    if Nested(defaults.fields, o, k) {
      OverrideWins(defaults.fields[k], o[k], path[1..], x);
    }
  }

  /** Every path of the defaults survives the merge unless the overrides put
      a non-dict somewhere along it. */
  lemma {:induction false} DefaultPathKept(defaults: Value, overrides: Value, path: seq<string>, x: Value)
    requires defaults.Obj? && overrides.Obj?
    requires At(defaults, path) == Some(x)
    requires forall n :: 0 < n <= |path| ==> At(overrides, path[..n]) == None || At(overrides, path[..n]).value.Obj?
    ensures At(Merged(defaults, overrides), path) != None
    decreases |path|
  {
    if path != [] {
      var k := path[0];
      var d := defaults.fields;
      var o := overrides.fields;
      var r := Merged(defaults, overrides);
      assert path[..1] == [k];
      assert At(overrides, [k]) == (if k in o then Some(o[k]) else None) by {
        assert [k][1..] == [];
      }
      assert At(defaults, path) == At(d[k], path[1..]);
      assert At(r, path) == At(r.fields[k], path[1..]);
      if Nested(d, o, k) {
        forall n | 0 < n <= |path[1..]|
          ensures At(o[k], path[1..][..n]) == None || At(o[k], path[1..][..n]).value.Obj?
        {
          assert path[..n + 1] == [k] + path[1..][..n];
          assert At(overrides, path[..n + 1]) == At(o[k], path[1..][..n]);
        }
        DefaultPathKept(d[k], o[k], path[1..], x);
      } else if k in o {
        assert path[1..] == [];
      }
    }
  }

  // ----- loading -----------------------------------------------------------

  /** `AppConfig.load`: `file` is what `json.load` produced, `None` when the
      file is missing or unreadable or not JSON (all read as `{}`). A file
      holding something other than a dict makes the merge fail, which is
      `None` here. */
  function Load(file: Option<Value>): (r: Option<Value>)
    ensures file == None ==> r == Some(DefaultConfig)
    ensures file != None && !file.value.Obj? ==> r == None
    ensures r != None ==> r.value.Obj? && DefaultConfig.fields.Keys <= r.value.fields.Keys
  {
    match file
    case None => MergeEmpty(DefaultConfig); Some(Merged(DefaultConfig, EmptyObj))
    case Some(v) => if v.Obj? then Some(Merged(DefaultConfig, v)) else None
  }

  /** Saving a loaded configuration and loading it again gives the same
      configuration: the defaults it already holds add nothing. */
  lemma LoadSavedIsStable(file: Option<Value>)
    requires Load(file) != None
    ensures Load(Some(Load(file).value)) == Load(file)
  {
    match file
    case None => MergeAbsorbs(DefaultConfig, EmptyObj);
    case Some(v) => MergeAbsorbs(DefaultConfig, v);
  }

  /** A file that overrides one hotkey still gets the other eight defaults. */
  lemma PartialHotkeysKeepDefaults()
    ensures var file := Obj(map["hotkeys" := Obj(map["play_pause" := Str("P")])]);
            var c := Load(Some(file));
            && c != None
            && At(c.value, ["hotkeys", "play_pause"]) == Some(Str("P"))
            && At(c.value, ["hotkeys", "next_track"]) == Some(Str("Ctrl+Right"))
            && c.value.fields["hotkeys"].fields.Keys == DefaultHotkeys.fields.Keys
  {
    var file := Obj(map["hotkeys" := Obj(map["play_pause" := Str("P")])]);
    var c := Merged(DefaultConfig, file);
    assert Nested(DefaultConfig.fields, file.fields, "hotkeys");
    var h := Merged(DefaultHotkeys, file.fields["hotkeys"]);
    assert c.fields["hotkeys"] == h;
    assert At(c, ["hotkeys", "play_pause"]) == At(h, ["play_pause"]);
    assert At(c, ["hotkeys", "next_track"]) == At(h, ["next_track"]);
    assert "play_pause" in DefaultHotkeys.fields.Keys;
  }

  // ----- getters and setters -----------------------------------------------

  /** `dict.get(key, default)` on the loaded settings. */
  function Get(data: Value, key: string, default: Value): (r: Value)
    requires data.Obj?
    ensures key in data.fields ==> r == data.fields[key]
    ensures key !in data.fields ==> r == default
  {
    if key in data.fields then data.fields[key] else default
  }

  /** Setting one key leaves every other key as it was. */
  function Set(data: Value, key: string, v: Value): (r: Value)
    requires data.Obj?
    ensures r.Obj? && r.fields.Keys == data.fields.Keys + {key}
    ensures Get(r, key, Null) == v
    ensures forall k :: k in data.fields && k != key ==> k in r.fields && r.fields[k] == data.fields[k]
  {
    Obj(data.fields[key := v])
  }

  /** The `display_mode` setter: an unknown mode is stored as "lyrics". */
  function SetDisplayMode(data: Value, mode: string): (r: Value)
    requires data.Obj?
    ensures r.Obj? && "display_mode" in r.fields
    ensures var m := r.fields["display_mode"];
            && m.Str? && (m.s == "lyrics" || m.s == "equalizer")
            && (m.s == mode <==> mode == "lyrics" || mode == "equalizer")
    ensures forall k :: k in data.fields && k != "display_mode" ==> k in r.fields && r.fields[k] == data.fields[k]
  {
    Set(data, "display_mode", Str(if mode == "lyrics" || mode == "equalizer" then mode else "lyrics"))
  }

  /** `max(lo, min(hi, v))` on integers. */
  function ClampInt(lo: int, hi: int, v: int): (r: int)
    requires lo <= hi
    ensures lo <= r <= hi
    ensures lo <= v <= hi ==> r == v
    ensures v < lo ==> r == lo
    ensures v > hi ==> r == hi
  {
    if v < lo then lo else if v > hi then hi else v
  }

  /** `max(lo, min(hi, v))` on floats. */
  function ClampReal(lo: real, hi: real, v: real): (r: real)
    requires lo <= hi
    ensures lo <= r <= hi
    ensures lo <= v <= hi ==> r == v
    ensures v < lo ==> r == lo
    ensures v > hi ==> r == hi
  {
    if v < lo then lo else if v > hi then hi else v
  }

  /** The float clamp of the float setters agrees with the integer clamp on
      whole numbers, so one rule governs every setter. */
  lemma ClampRealAgrees(lo: int, hi: int, v: int)
    requires lo <= hi
    ensures ClampReal(lo as real, hi as real, v as real) == ClampInt(lo, hi, v) as real
  {
  }

  /** Clamping keeps order and is a projection: clamping again changes
      nothing. */
  lemma ClampMonotone(lo: int, hi: int, v: int, w: int)
    requires lo <= hi && v <= w
    ensures ClampInt(lo, hi, v) <= ClampInt(lo, hi, w)
    ensures ClampInt(lo, hi, ClampInt(lo, hi, v)) == ClampInt(lo, hi, v)
  {
  }

  /** The `lyric_font_size_px` setter stores the size clamped to [8, 32]. */
  function SetLyricFontSize(data: Value, px: int): (r: Value)
    requires data.Obj?
    ensures r.Obj? && "lyric_font_size_px" in r.fields
    ensures var v := r.fields["lyric_font_size_px"];
            v.Int? && 8 <= v.i <= 32 && (8 <= px <= 32 ==> v.i == px)
    ensures forall k :: k in data.fields && k != "lyric_font_size_px" ==> k in r.fields && r.fields[k] == data.fields[k]
  {
    Set(data, "lyric_font_size_px", Int(ClampInt(8, 32, px)))
  }

  /** The `esp32_font_size` setter stores the scale clamped to [1.0, 3.0]. */
  function SetEsp32FontSize(data: Value, scale: real): (r: Value)
    requires data.Obj?
    ensures r.Obj? && "esp32_font_size" in r.fields
    ensures var v := r.fields["esp32_font_size"];
            v.Float? && 1.0 <= v.x <= 3.0 && (1.0 <= scale <= 3.0 ==> v.x == scale)
    ensures forall k :: k in data.fields && k != "esp32_font_size" ==> k in r.fields && r.fields[k] == data.fields[k]
  {
    Set(data, "esp32_font_size", Float(ClampReal(1.0, 3.0, scale)))
  }

  /** The `volume` setter stores the volume clamped to [0.0, 1.0]. */
  function SetVolume(data: Value, volume: real): (r: Value)
    requires data.Obj?
    ensures r.Obj? && "volume" in r.fields
    ensures var v := r.fields["volume"];
            v.Float? && 0.0 <= v.x <= 1.0 && (0.0 <= volume <= 1.0 ==> v.x == volume)
    ensures forall k :: k in data.fields && k != "volume" ==> k in r.fields && r.fields[k] == data.fields[k]
  {
    Set(data, "volume", Float(ClampReal(0.0, 1.0, volume)))
  }

  /** The `display_mode` getter after loading: the stored value, which the
      merge guarantees is present. */
  lemma LoadedDisplayMode(file: Option<Value>)
    requires Load(file) != None
    ensures "display_mode" in Load(file).value.fields
    ensures file == None ==> Get(Load(file).value, "display_mode", Str("lyrics")) == Str("lyrics")
  {
  }
}
