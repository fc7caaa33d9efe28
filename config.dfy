/**
 * The processor's configuration dictionary (`src/image_processor.py`,
 * `ImageProcessor.__init__`): its values, the six defaults, and the merge
 * that adds a default only for a key the caller did not supply.
 */
module Config {

  /** A value stored in the configuration dictionary. Floating-point values are modelled as reals. */
  datatype Value = Bool(b: bool) | Int(i: int) | Float(f: real) | Str(s: string) | NoneValue

  /** Python truthiness, which decides every `if self.config[...]` test. */
  predicate Truthy(v: Value)
  {
    match v
    case Bool(b) => b
    case Int(i) => i != 0
    case Float(f) => f != 0.0
    case Str(s) => s != ""
    case NoneValue => false
  }

  type Entries = seq<(string, Value)>

  /** `self.default_config`, in the order its items are visited. */
  const DefaultConfig: Entries := [
    ("output_quality", Int(95)),
    ("output_format", Str("png")),
    ("auto_adjust_brightness", Bool(true)),
    ("auto_adjust_contrast", Bool(true)),
    ("detect_edges", Bool(true)),
    ("resize_method", Str("lanczos"))
  ]

  function KeysOf(ds: Entries): set<string>
  {
    set i | 0 <= i < |ds| :: ds[i].0
  }

  predicate DistinctKeys(ds: Entries)
  {
    forall i, j :: 0 <= i < j < |ds| ==> ds[i].0 != ds[j].0
  }

  /** The dictionary an entry list denotes. */
  function MapOf(ds: Entries): (m: map<string, Value>)
    ensures m.Keys == KeysOf(ds)
  {
    if ds == [] then map[]
    else
      var init := ds[..|ds| - 1];
      assert KeysOf(ds) == KeysOf(init) + {ds[|ds| - 1].0} by {
        assert forall i :: 0 <= i < |init| ==> init[i] == ds[i];
      }
      MapOf(init)[ds[|ds| - 1].0 := ds[|ds| - 1].1]
  }

  /** The merge loop after it has visited the given entries: each key not yet present is added with its default. */
  function AddMissing(m: map<string, Value>, ds: Entries): map<string, Value>
  {
    if ds == [] then m
    else
      var before := AddMissing(m, ds[..|ds| - 1]);
      var (key, value) := ds[|ds| - 1];
      if key !in before then before[key := value] else before
  }

  /**
   * The merge loop computes the defaults overlaid by the caller's dictionary:
   * the caller's value wherever the caller has the key, the default elsewhere.
   */
  lemma {:induction false} AddMissingIsOverlay(m: map<string, Value>, ds: Entries)
    requires DistinctKeys(ds)
    ensures AddMissing(m, ds) == MapOf(ds) + m
  {
    if ds != [] {
      var init := ds[..|ds| - 1];
      var key, value := ds[|ds| - 1].0, ds[|ds| - 1].1;
      assert DistinctKeys(init) by {
        forall i, j | 0 <= i < j < |init| ensures init[i].0 != init[j].0 { assert init[i] == ds[i] && init[j] == ds[j]; }
      }
      AddMissingIsOverlay(m, init);
      assert key !in KeysOf(init) by {
        forall i | 0 <= i < |init| ensures init[i].0 != key { assert init[i] == ds[i]; }
      }
      OverlayStep(MapOf(init), m, key, value);
    }
  }

  lemma OverlayStep(d: map<string, Value>, m: map<string, Value>, key: string, value: Value)
    requires key !in d
    ensures (if key !in d + m then (d + m)[key := value] else d + m) == d[key := value] + m
  {
  }

  lemma DefaultConfigDistinct()
    ensures DistinctKeys(DefaultConfig)
  {
    var ks := [DefaultConfig[0].0, DefaultConfig[1].0, DefaultConfig[2].0,
               DefaultConfig[3].0, DefaultConfig[4].0, DefaultConfig[5].0];
    assert |ks[0]| == 14 && |ks[1]| == 13 && |ks[2]| == 22 && |ks[3]| == 20 && |ks[4]| == 12 && |ks[5]| == 13;
    assert ks[1][0] != ks[5][0];
    assert ks[2][14] != ks[3][14];
  }

  /** The six keys `default_config` supplies. */
  const DefaultKeys: set<string> := {
    "output_quality", "output_format", "auto_adjust_brightness",
    "auto_adjust_contrast", "detect_edges", "resize_method"
  }

  lemma DefaultKeysListed()
    ensures KeysOf(DefaultConfig) == DefaultKeys
  {
    assert DefaultConfig[0].0 in KeysOf(DefaultConfig);
    assert DefaultConfig[1].0 in KeysOf(DefaultConfig);
    assert DefaultConfig[2].0 in KeysOf(DefaultConfig);
    assert DefaultConfig[3].0 in KeysOf(DefaultConfig);
    assert DefaultConfig[4].0 in KeysOf(DefaultConfig);
    assert DefaultConfig[5].0 in KeysOf(DefaultConfig);
  }

  /** The configuration `__init__` leaves in `self.config`. */
  function WithDefaults(user: map<string, Value>): map<string, Value>
  {
    MapOf(DefaultConfig) + user
  }

  /**
   * After the merge every default key is present, a key the caller supplied
   * keeps the caller's value (extra keys such as `brightness_factor`
   * included), a missing default key gets its default, and nothing else is
   * added.
   */
  lemma WithDefaultsProperties(user: map<string, Value>)
    ensures DefaultKeys <= WithDefaults(user).Keys
    ensures WithDefaults(user).Keys == user.Keys + DefaultKeys
    ensures forall k :: k in user ==> WithDefaults(user)[k] == user[k]
    ensures forall i :: 0 <= i < |DefaultConfig| && DefaultConfig[i].0 !in user ==>
      WithDefaults(user)[DefaultConfig[i].0] == DefaultConfig[i].1
  {
    DefaultConfigDistinct();
    forall i | 0 <= i < |DefaultConfig| ensures MapOf(DefaultConfig)[DefaultConfig[i].0] == DefaultConfig[i].1 {
      MapOfAt(DefaultConfig, i);
    }
    WithDefaultsKeys(user);
  }

  lemma WithDefaultsKeys(user: map<string, Value>)
    ensures WithDefaults(user).Keys == user.Keys + DefaultKeys
  {
    var keys := KeysOf(DefaultConfig);
    assert WithDefaults(user).Keys == user.Keys + keys;
    DefaultKeysListed();
  }

  /** In an entry list with distinct keys, each entry's key maps to its value. */
  lemma {:induction false} MapOfAt(ds: Entries, i: nat)
    requires DistinctKeys(ds) && i < |ds|
    ensures MapOf(ds)[ds[i].0] == ds[i].1
  {
    var init := ds[..|ds| - 1];
    if i < |ds| - 1 {
      assert DistinctKeys(init);
      assert init[i] == ds[i];
      MapOfAt(init, i);
    }
  }

  /** A dictionary that already holds every default key is left as it is. */
  lemma WithDefaultsKeepsComplete(user: map<string, Value>)
    requires DefaultKeys <= user.Keys
    ensures WithDefaults(user) == user
  {
    DefaultKeysListed();
  }
}
