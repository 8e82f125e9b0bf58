/** The older pattern library of src/patterns.cpp. It has the same two maps as
    the current one, but add_pattern checks nothing, ignores a fingerprint
    that is already stored (the only trace is a line on the error stream), and
    get_pattern falls back to the empty fingerprint without a guard. */
module LegacyPatterns {
  import opened Wrappers
  import opened Patterns
  import PatternLibrary

  type Store = PatternLibrary.Store

  /** Every entry is filed under its own fingerprint, and under its own key. */
  predicate Filed(st: Store)
  {
    && (forall f :: f in st.byFingerprint ==> st.byFingerprint[f].fingerprint == f)
    && (forall k :: k in st.byKey ==> st.byKey[k].key == k)
  }

  /** add_pattern: a new fingerprint is stored in the fingerprint map, and in
      the key map unless that key is already there (emplace keeps the old
      entry); a stored fingerprint leaves both maps as they are and reports
      the duplicate. Nothing is validated. */
  function Add(st: Store, key: string, pattern: string, name: string, color: string): (r: (Store, bool))
  {
    if pattern !in st.byFingerprint then
      var p := Pattern(key, name, pattern, color);
      (PatternLibrary.Store(st.byFingerprint[pattern := p],
                            if key in st.byKey then st.byKey else st.byKey[key := p]), false)
    else (st, true)
  }

  /** get_pattern: a stored fingerprint gives its entry, any other the entry of
      the empty fingerprint. Without that entry the source recurses forever,
      so its presence is required. */
  function GetPattern(st: Store, pattern: string): (r: Pattern)
    requires "" in st.byFingerprint
  {
    if pattern in st.byFingerprint then st.byFingerprint[pattern] else st.byFingerprint[""]
  }

  /** get_pattern_by_key */
  function GetPatternByKey(st: Store, key: string): (r: Result<Pattern, Exception>)
  {
    if key in st.byKey then Ok(st.byKey[key]) else Err(RuntimeError("Unknown pattern key: " + key))
  }

  /** identify_pattern */
  function Identify(st: Store, pattern: string): (name: string)
    requires "" in st.byFingerprint
  {
    GetPattern(st, pattern).name
  }

  /** A new fingerprint with a new key goes into both maps as the same entry,
      and nothing else changes. */
  lemma AddNewEntry(st: Store, key: string, pattern: string, name: string, color: string)
    requires pattern !in st.byFingerprint && key !in st.byKey
    ensures var (st', warned) := Add(st, key, pattern, name, color);
      && !warned
      && st'.byFingerprint[pattern] == MakePattern(key, name, pattern, color)
      && st'.byKey[key] == st'.byFingerprint[pattern]
      && GetPatternByKey(st', key) == Ok(MakePattern(key, name, pattern, color))
      && st'.byFingerprint.Keys == st.byFingerprint.Keys + {pattern}
      && st'.byKey.Keys == st.byKey.Keys + {key}
  {
  }

  /** A stored fingerprint changes nothing, whatever the other arguments, and
      is only reported. */
  lemma AddDuplicateIgnored(st: Store, key: string, pattern: string, name: string, color: string)
    requires pattern in st.byFingerprint
    ensures Add(st, key, pattern, name, color) == (st, true)
  {
  }

  /** Without validation any strings are accepted, and the filing of entries
      under their own fingerprint and key is kept. */
  lemma AddKeepsFiled(st: Store, key: string, pattern: string, name: string, color: string)
    requires Filed(st)
    ensures Filed(Add(st, key, pattern, name, color).0)
    ensures pattern in Add(st, key, pattern, name, color).0.byFingerprint
  {
  }

  /** A lookup gives the entry of the fingerprint asked for, or else the
      entry of the empty fingerprint. */
  lemma GetPatternFallback(st: Store, pattern: string)
    requires Filed(st) && "" in st.byFingerprint
    ensures GetPattern(st, pattern).fingerprint == (if pattern in st.byFingerprint then pattern else "")
    ensures Identify(st, pattern) == GetPattern(st, pattern).name
  {
  }

  /** get_pattern_by_key gives the entry filed under the key, and raises a
      runtime error naming the key when there is none. */
  lemma GetPatternByKeyMeaning(st: Store, key: string)
    requires Filed(st)
    ensures GetPatternByKey(st, key).Ok? <==> key in st.byKey
    ensures GetPatternByKey(st, key).Ok? ==> GetPatternByKey(st, key).value.key == key
    ensures key !in st.byKey ==> GetPatternByKey(st, key) == Err(RuntimeError("Unknown pattern key: " + key))
  {
  }

  /** The library object of the older source. */
  class Library {
    var patterns: map<string, Pattern>
    var patternsByKey: map<string, Pattern>

    function Current(): Store
      reads this
    {
      PatternLibrary.Store(patterns, patternsByKey)
    }

    /** add_pattern; warned says that the duplicate message was written. */
    method AddPattern(key: string, pattern: string, name: string, color: string) returns (warned: bool)
      modifies this
      ensures (Current(), warned) == Add(old(Current()), key, pattern, name, color)
      ensures old(Filed(Current())) ==> Filed(Current())
    {
      if pattern !in patterns {
        var p := Pattern(key, name, pattern, color);
        patterns := patterns[pattern := p];
        if key !in patternsByKey {
          patternsByKey := patternsByKey[key := p];
        }
        warned := false;
      } else {
        warned := true;
      }
    }
  }
}
