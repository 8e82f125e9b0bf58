/** The pattern library of src/pattern_library.cpp: every known pattern is held
    twice, once in a map indexed by fingerprint and once in a map indexed by
    key. The operations are first given as functions on a Store value, about
    which the lemmas speak; the Library class holds the two maps as fields and
    its methods are proved to change them exactly as those functions say.

    Add and Edit are add_pattern and edit_pattern as the source writes them:
    the key of an addition is not checked against the stored keys, and an
    edit removes the old entry before add_pattern can refuse the new one.
    AddCorrected and EditCorrected refuse both cases and use the intended
    count syntax; they keep the two maps in agreement, which the source's
    operations do not always do. */
module PatternLibrary {
  import opened Wrappers
  import opened Patterns
  import opened Validators

  datatype Store = Store(byFingerprint: map<string, Pattern>, byKey: map<string, Pattern>)

  /** The two maps file the same entries, each under its own fingerprint and
      its own key, and every entry passes the validators. */
  predicate Consistent(st: Store)
  {
    && (forall f :: f in st.byFingerprint ==>
          && st.byFingerprint[f].fingerprint == f
          && st.byFingerprint[f].key in st.byKey
          && st.byKey[st.byFingerprint[f].key] == st.byFingerprint[f])
    && (forall k :: k in st.byKey ==>
          && st.byKey[k].key == k
          && st.byKey[k].fingerprint in st.byFingerprint
          && st.byFingerprint[st.byKey[k].fingerprint] == st.byKey[k])
    && (forall k :: k in st.byKey ==>
          && IsValidKey(k)
          && IsValidPatternIntended(st.byKey[k].fingerprint)
          && IsValidColorCode(st.byKey[k].color))
  }

  function EmptyStore(): Store { Store(map[], map[]) }

  /** The entry every library starts with. */
  function UnknownPattern(): Pattern { Pattern("unknown", "Unknown", "", "000000") }

  function InvalidPatternError(pattern: string): Exception
  {
    RuntimeError("Pattern \"" + pattern + "\" is invalid!")
  }

  function InvalidKeyError(key: string): Exception
  {
    RuntimeError("Key \"" + key + "\" is invalid!")
  }

  function InvalidColorError(color: string): Exception
  {
    RuntimeError("Color code \"" + color + "\" is invalid!")
  }

  function DuplicatePatternError(pattern: string): Exception
  {
    RuntimeError("Pattern {" + pattern + "} already exists in library.")
  }

  function DuplicateKeyError(key: string): Exception
  {
    RuntimeError("Key {" + key + "} already exists in library.")
  }

  function UnknownKeyError(key: string): Exception
  {
    RuntimeError("Unknown pattern key: " + key)
  }

  function MissingEmptyPatternError(): Exception
  {
    LogicError("Library does not contain the empty pattern.")
  }

  /** add_pattern: the fingerprint, the key and the colour are checked in that
      order, and a fingerprint already present is refused. The key itself is
      not looked up: the entry goes into the fingerprint map, and into the key
      map only when the key is new, since emplace leaves a stored key's entry
      in place. */
  function Add(st: Store, key: string, pattern: string, name: string, color: string): (r: Result<Store, Exception>)
  {
    if !IsValidPattern(pattern) then Err(InvalidPatternError(pattern))
    else if !IsValidKey(key) then Err(InvalidKeyError(key))
    else if !IsValidColorCode(color) then Err(InvalidColorError(color))
    else if pattern in st.byFingerprint then Err(DuplicatePatternError(pattern))
    else
      var p := Pattern(key, name, pattern, color);
      Ok(Store(st.byFingerprint[pattern := p],
               if key in st.byKey then st.byKey else st.byKey[key := p]))
  }

  /** add_pattern, corrected: fingerprints use the intended count syntax, and
      a key already present is refused as well. */
  function AddCorrected(st: Store, key: string, pattern: string, name: string, color: string): (r: Result<Store, Exception>)
  {
    if !IsValidPatternIntended(pattern) then Err(InvalidPatternError(pattern))
    else if !IsValidKey(key) then Err(InvalidKeyError(key))
    else if !IsValidColorCode(color) then Err(InvalidColorError(color))
    else if pattern in st.byFingerprint then Err(DuplicatePatternError(pattern))
    else if key in st.byKey then Err(DuplicateKeyError(key))
    else
      var p := Pattern(key, name, pattern, color);
      Ok(Store(st.byFingerprint[pattern := p], st.byKey[key := p]))
  }

  /** remove_pattern: erases the fingerprint from one map and the key from the
      other; erasing what is absent does nothing. */
  function Remove(st: Store, key: string, pattern: string): (r: Store)
  {
    Store(st.byFingerprint - {pattern}, st.byKey - {key})
  }

  /** get_pattern: a stored fingerprint gives its entry, any other fingerprint
      gives the entry of the empty fingerprint, and a library without the empty
      fingerprint raises a logic error. */
  function GetPattern(st: Store, pattern: string): (r: Result<Pattern, Exception>)
    decreases |pattern|
  {
    if pattern in st.byFingerprint then Ok(st.byFingerprint[pattern])
    else if pattern == "" then Err(MissingEmptyPatternError())
    else GetPattern(st, "")
  }

  /** get_pattern_by_key */
  function GetPatternByKey(st: Store, key: string): (r: Result<Pattern, Exception>)
  {
    if key in st.byKey then Ok(st.byKey[key]) else Err(UnknownKeyError(key))
  }

  /** identify_pattern: the name of the entry get_pattern finds. */
  function Identify(st: Store, pattern: string): (r: Result<string, Exception>)
  {
    var p := GetPattern(st, pattern);
    if p.Ok? then Ok(p.value.name) else Err(p.error)
  }

  /** delete_pattern_by_key: looks the key up, then removes that entry from
      both maps. */
  function DeleteByKey(st: Store, key: string): (r: Result<Store, Exception>)
  {
    var got := GetPatternByKey(st, key);
    if got.Err? then Err(got.error) else Ok(Remove(st, got.value.key, got.value.fingerprint))
  }

  /** edit_pattern: the key is looked up and the new fingerprint and colour are
      checked; then the old entry is removed and add_pattern runs, so when
      add_pattern raises, the removal stays. The result is the state after the
      call and whether it raised. */
  function Edit(st: Store, key: string, pattern: string, name: string, color: string): (r: (Store, Outcome<Exception>))
  {
    var got := GetPatternByKey(st, key);
    if got.Err? then (st, Fail(got.error))
    else
      var oldPattern := got.value.fingerprint;
      if !IsValidPattern(pattern) then (st, Fail(InvalidPatternError(pattern)))
      else if !IsValidColorCode(color) then (st, Fail(InvalidColorError(color)))
      else
        var removed := Remove(st, key, oldPattern);
        var added := Add(removed, key, pattern, name, color);
        if added.Ok? then (added.value, Pass) else (removed, Fail(added.error))
  }

  /** edit_pattern, corrected: a fingerprint held by another entry is refused
      before the old entry is removed. */
  function EditCorrected(st: Store, key: string, pattern: string, name: string, color: string): (r: Result<Store, Exception>)
  {
    var got := GetPatternByKey(st, key);
    if got.Err? then Err(got.error)
    else
      var oldPattern := got.value.fingerprint;
      if !IsValidPatternIntended(pattern) then Err(InvalidPatternError(pattern))
      else if !IsValidColorCode(color) then Err(InvalidColorError(color))
      else if pattern in st.byFingerprint && pattern != oldPattern then Err(DuplicatePatternError(pattern))
      else AddCorrected(Remove(st, key, oldPattern), key, pattern, name, color)
  }

  // ---------------------------------------------------------------------
  // Lemmas

  /** The default constructor leaves exactly one entry: key "unknown", name
      "Unknown", the empty fingerprint and colour "000000"; the corrected add
      gives the same library. */
  lemma FreshLibrary()
    ensures Add(EmptyStore(), "unknown", "", "Unknown", "000000")
         == Ok(Store(map["" := UnknownPattern()], map["unknown" := UnknownPattern()]))
    ensures AddCorrected(EmptyStore(), "unknown", "", "Unknown", "000000")
         == Ok(Store(map["" := UnknownPattern()], map["unknown" := UnknownPattern()]))
    ensures Consistent(Store(map["" := UnknownPattern()], map["unknown" := UnknownPattern()]))
    ensures GetPatternByKey(Store(map["" := UnknownPattern()], map["unknown" := UnknownPattern()]), "unknown").value.name
         == "Unknown"
  {
    assert IsValidPattern("");
    assert IsValidPatternIntended("");
    KeyAndColorExamples();
  }

  /** add_pattern checks fingerprint, key, colour and a duplicate fingerprint,
      in that order, and succeeds exactly when all of them pass; a stored key
      is no obstacle. On success the fingerprint map files the new entry, and
      the key map gains it only when the key was new. */
  lemma AddSucceedsIff(st: Store, key: string, pattern: string, name: string, color: string)
    ensures Add(st, key, pattern, name, color).Ok? <==>
      IsValidPattern(pattern) && IsValidKey(key) && IsValidColorCode(color) && pattern !in st.byFingerprint
    ensures !IsValidPattern(pattern) ==> Add(st, key, pattern, name, color) == Err(InvalidPatternError(pattern))
    ensures IsValidPattern(pattern) && !IsValidKey(key) ==> Add(st, key, pattern, name, color) == Err(InvalidKeyError(key))
    ensures IsValidPattern(pattern) && IsValidKey(key) && !IsValidColorCode(color)
        ==> Add(st, key, pattern, name, color) == Err(InvalidColorError(color))
    ensures IsValidPattern(pattern) && IsValidKey(key) && IsValidColorCode(color) && pattern in st.byFingerprint
        ==> Add(st, key, pattern, name, color) == Err(DuplicatePatternError(pattern))
    ensures Add(st, key, pattern, name, color).Ok? ==>
      var st' := Add(st, key, pattern, name, color).value;
      && st'.byFingerprint.Keys == st.byFingerprint.Keys + {pattern}
      && st'.byFingerprint[pattern] == MakePattern(key, name, pattern, color)
      && (key in st.byKey ==> st'.byKey == st.byKey)
      && (key !in st.byKey ==> st'.byKey.Keys == st.byKey.Keys + {key}
                               && st'.byKey[key] == MakePattern(key, name, pattern, color))
  {
  }

  /** From agreeing maps, a successful add_pattern keeps them in agreement
      exactly when the key was new; every entry that was there stays, and the
      new fingerprint finds the new entry. */
  lemma AddKeepsConsistent(st: Store, key: string, pattern: string, name: string, color: string)
    requires Consistent(st)
    requires Add(st, key, pattern, name, color).Ok?
    ensures var st' := Add(st, key, pattern, name, color).value;
      && (Consistent(st') <==> key !in st.byKey)
      && GetPattern(st', pattern) == Ok(MakePattern(key, name, pattern, color))
      && (key !in st.byKey ==> GetPatternByKey(st', key) == Ok(MakePattern(key, name, pattern, color)))
      && (forall f :: f in st.byFingerprint ==> f in st'.byFingerprint && st'.byFingerprint[f] == st.byFingerprint[f])
      && (forall k :: k in st.byKey ==> k in st'.byKey && st'.byKey[k] == st.byKey[k])
  {
    if key in st.byKey {
      AddAsWrittenBreaksAgreement(st, key, pattern, name, color);
    } else {
      ShippedWithinIntended(pattern);
      InsertKeepsConsistent(st, Pattern(key, name, pattern, color));
    }
  }

  /** The corrected add succeeds exactly when every check passes, a new key
      included. */
  lemma AddCorrectedSucceedsIff(st: Store, key: string, pattern: string, name: string, color: string)
    ensures AddCorrected(st, key, pattern, name, color).Ok? <==>
      IsValidPatternIntended(pattern) && IsValidKey(key) && IsValidColorCode(color)
      && pattern !in st.byFingerprint && key !in st.byKey
    ensures !IsValidPatternIntended(pattern) ==> AddCorrected(st, key, pattern, name, color) == Err(InvalidPatternError(pattern))
    ensures IsValidPatternIntended(pattern) && !IsValidKey(key) ==> AddCorrected(st, key, pattern, name, color) == Err(InvalidKeyError(key))
  {
  }

  /** A successful corrected add keeps the maps in agreement, keeps every entry
      that was there, and makes the new entry the answer of both lookups. */
  lemma AddCorrectedKeepsConsistent(st: Store, key: string, pattern: string, name: string, color: string)
    requires Consistent(st)
    requires AddCorrected(st, key, pattern, name, color).Ok?
    ensures var st' := AddCorrected(st, key, pattern, name, color).value;
      && Consistent(st')
      && GetPattern(st', pattern) == Ok(MakePattern(key, name, pattern, color))
      && GetPatternByKey(st', key) == Ok(MakePattern(key, name, pattern, color))
      && (forall f :: f in st.byFingerprint ==> f in st'.byFingerprint && st'.byFingerprint[f] == st.byFingerprint[f])
      && (forall k :: k in st.byKey ==> k in st'.byKey && st'.byKey[k] == st.byKey[k])
  {
    var p := Pattern(key, name, pattern, color);
    var st' := Store(st.byFingerprint[pattern := p], st.byKey[key := p]);
    assert AddCorrected(st, key, pattern, name, color) == Ok(st');
    InsertKeepsConsistent(st, p);
  }

  /** Filing a valid entry whose fingerprint and key are both new keeps the
      maps in agreement. */
  lemma InsertKeepsConsistent(st: Store, p: Pattern)
    requires Consistent(st)
    requires p.fingerprint !in st.byFingerprint && p.key !in st.byKey
    requires IsValidKey(p.key) && IsValidPatternIntended(p.fingerprint) && IsValidColorCode(p.color)
    ensures Consistent(Store(st.byFingerprint[p.fingerprint := p], st.byKey[p.key := p]))
  {
    var st' := Store(st.byFingerprint[p.fingerprint := p], st.byKey[p.key := p]);
    InsertFilesFingerprints(st, p, st');
    InsertFilesKeys(st, p, st');
  }

  /** After the insertion every fingerprint entry is filed under its key. */
  lemma InsertFilesFingerprints(st: Store, p: Pattern, st': Store)
    requires Consistent(st)
    requires p.fingerprint !in st.byFingerprint && p.key !in st.byKey
    requires st' == Store(st.byFingerprint[p.fingerprint := p], st.byKey[p.key := p])
    ensures forall f :: f in st'.byFingerprint ==>
      && st'.byFingerprint[f].fingerprint == f
      && st'.byFingerprint[f].key in st'.byKey
      && st'.byKey[st'.byFingerprint[f].key] == st'.byFingerprint[f]
  {
    forall f | f in st'.byFingerprint
      ensures && st'.byFingerprint[f].fingerprint == f
              && st'.byFingerprint[f].key in st'.byKey
              && st'.byKey[st'.byFingerprint[f].key] == st'.byFingerprint[f]
    {
      if f != p.fingerprint {
        assert st.byFingerprint[f].key in st.byKey;
      }
    }
  }

  /** After the insertion every key entry is filed under its fingerprint and
      passes the validators. */
  lemma InsertFilesKeys(st: Store, p: Pattern, st': Store)
    requires Consistent(st)
    requires p.fingerprint !in st.byFingerprint && p.key !in st.byKey
    requires IsValidKey(p.key) && IsValidPatternIntended(p.fingerprint) && IsValidColorCode(p.color)
    requires st' == Store(st.byFingerprint[p.fingerprint := p], st.byKey[p.key := p])
    ensures forall k :: k in st'.byKey ==>
      && st'.byKey[k].key == k
      && st'.byKey[k].fingerprint in st'.byFingerprint
      && st'.byFingerprint[st'.byKey[k].fingerprint] == st'.byKey[k]
      && IsValidKey(k)
      && IsValidPatternIntended(st'.byKey[k].fingerprint)
      && IsValidColorCode(st'.byKey[k].color)
  {
    forall k | k in st'.byKey
      ensures && st'.byKey[k].key == k
              && st'.byKey[k].fingerprint in st'.byFingerprint
              && st'.byFingerprint[st'.byKey[k].fingerprint] == st'.byKey[k]
              && IsValidKey(k)
              && IsValidPatternIntended(st'.byKey[k].fingerprint)
              && IsValidColorCode(st'.byKey[k].color)
    {
      if k != p.key {
        assert st.byKey[k].fingerprint in st.byFingerprint;
      }
    }
  }

  /** Removing a stored entry by its own key and fingerprint keeps the maps in
      agreement and leaves every other entry in place. */
  lemma RemoveKeepsConsistent(st: Store, key: string)
    requires Consistent(st) && key in st.byKey
    ensures var f := st.byKey[key].fingerprint;
      var st' := Remove(st, key, f);
      && Consistent(st')
      && key !in st'.byKey && f !in st'.byFingerprint
      && (forall k :: k in st.byKey && k != key ==> k in st'.byKey && st'.byKey[k] == st.byKey[k])
      && (forall g :: g in st.byFingerprint && g != f ==> g in st'.byFingerprint && st'.byFingerprint[g] == st.byFingerprint[g])
  {
    var f := st.byKey[key].fingerprint;
    var st' := Remove(st, key, f);
    forall g | g in st'.byFingerprint
      ensures st'.byFingerprint[g].key in st'.byKey && st'.byKey[st'.byFingerprint[g].key] == st'.byFingerprint[g]
    {
      assert st.byFingerprint[g].key != key;
    }
    forall k | k in st'.byKey
      ensures st'.byKey[k].fingerprint in st'.byFingerprint && st'.byFingerprint[st'.byKey[k].fingerprint] == st'.byKey[k]
    {
      assert st.byKey[k].fingerprint != f;
    }
  }

  /** Erasing an entry that is in neither map changes nothing. */
  lemma RemoveAbsentIsNoOp(st: Store, key: string, pattern: string)
    requires key !in st.byKey && pattern !in st.byFingerprint
    ensures Remove(st, key, pattern) == st
  {
    assert st.byKey - {key} == st.byKey;
    assert st.byFingerprint - {pattern} == st.byFingerprint;
  }

  /** delete_pattern_by_key raises on an unknown key and otherwise removes that
      one entry from both maps. */
  lemma DeleteByKeyKeepsConsistent(st: Store, key: string)
    requires Consistent(st)
    ensures DeleteByKey(st, key).Err? <==> key !in st.byKey
    ensures key !in st.byKey ==> DeleteByKey(st, key) == Err(UnknownKeyError(key))
    ensures DeleteByKey(st, key).Ok? ==>
      && Consistent(DeleteByKey(st, key).value)
      && key !in DeleteByKey(st, key).value.byKey
      && st.byKey[key].fingerprint !in DeleteByKey(st, key).value.byFingerprint
  {
    if key in st.byKey {
      RemoveKeepsConsistent(st, key);
    }
  }

  /** get_pattern on a consistent store: a hit gives its entry, a miss gives
      the entry of the empty fingerprint when there is one, and raises a logic
      error otherwise. */
  lemma GetPatternFallback(st: Store, pattern: string)
    ensures pattern in st.byFingerprint ==> GetPattern(st, pattern) == Ok(st.byFingerprint[pattern])
    ensures pattern !in st.byFingerprint && "" in st.byFingerprint ==> GetPattern(st, pattern) == Ok(st.byFingerprint[""])
    ensures pattern !in st.byFingerprint && "" !in st.byFingerprint ==> GetPattern(st, pattern) == Err(MissingEmptyPatternError())
    ensures Identify(st, pattern).Ok? ==> Identify(st, pattern).value == GetPattern(st, pattern).value.name
  {
  }

  /** edit_pattern passes exactly when the key is known, the new fingerprint
      and colour are valid and the new fingerprint is free or the entry's own;
      an unknown key, a bad fingerprint or a bad colour raise before anything
      changes. */
  lemma EditSucceedsIff(st: Store, key: string, pattern: string, name: string, color: string)
    ensures Edit(st, key, pattern, name, color).1 == Pass <==>
      && key in st.byKey && IsValidKey(key)
      && IsValidPattern(pattern) && IsValidColorCode(color)
      && (pattern !in st.byFingerprint || pattern == st.byKey[key].fingerprint)
    ensures key !in st.byKey ==> Edit(st, key, pattern, name, color) == (st, Fail(UnknownKeyError(key)))
    ensures key in st.byKey && !IsValidPattern(pattern)
        ==> Edit(st, key, pattern, name, color) == (st, Fail(InvalidPatternError(pattern)))
    ensures key in st.byKey && IsValidPattern(pattern) && !IsValidColorCode(color)
        ==> Edit(st, key, pattern, name, color) == (st, Fail(InvalidColorError(color)))
  {
    if key in st.byKey {
      var removed := Remove(st, key, st.byKey[key].fingerprint);
      assert pattern in removed.byFingerprint <==> pattern in st.byFingerprint && pattern != st.byKey[key].fingerprint;
    }
  }

  /** From agreeing maps, edit_pattern leaves agreeing maps whatever happens.
      When it passes, the key's entry is the new one in both maps, the old
      fingerprint is gone unless it was kept, and the other keys keep their
      entries; when it raises, the library is unchanged or has lost the
      edited entry. */
  lemma EditKeepsConsistent(st: Store, key: string, pattern: string, name: string, color: string)
    requires Consistent(st)
    ensures Consistent(Edit(st, key, pattern, name, color).0)
    ensures var (st', outcome) := Edit(st, key, pattern, name, color);
      outcome == Pass ==>
        && GetPattern(st', pattern) == Ok(MakePattern(key, name, pattern, color))
        && GetPatternByKey(st', key) == Ok(MakePattern(key, name, pattern, color))
        && (st.byKey[key].fingerprint != pattern ==> st.byKey[key].fingerprint !in st'.byFingerprint)
        && (forall k :: k in st.byKey && k != key ==> k in st'.byKey && st'.byKey[k] == st.byKey[k])
    ensures var (st', outcome) := Edit(st, key, pattern, name, color);
      outcome.Fail? ==> st' == st || (key in st.byKey && st' == Remove(st, key, st.byKey[key].fingerprint))
  {
    if key in st.byKey && IsValidPattern(pattern) && IsValidColorCode(color) {
      RemoveKeepsConsistent(st, key);
      var removed := Remove(st, key, st.byKey[key].fingerprint);
      if Add(removed, key, pattern, name, color).Ok? {
        AddKeepsConsistent(removed, key, pattern, name, color);
      }
    }
  }

  /** edit_pattern keeps the set of keys when it passes; when it raises after
      the removal, the edited key is gone. */
  lemma EditKeepsKeys(st: Store, key: string, pattern: string, name: string, color: string)
    ensures var (st', outcome) := Edit(st, key, pattern, name, color);
      && (outcome == Pass ==> st'.byKey.Keys == st.byKey.Keys)
      && (outcome.Fail? ==>
            st'.byKey.Keys == if key in st.byKey && IsValidPattern(pattern) && IsValidColorCode(color)
                              then st.byKey.Keys - {key} else st.byKey.Keys)
  {
    if key in st.byKey {
      var removed := Remove(st, key, st.byKey[key].fingerprint);
      assert removed.byKey.Keys == st.byKey.Keys - {key};
    }
  }

  /** The corrected edit succeeds exactly when the key is known, the new
      fingerprint and colour are valid and the new fingerprint is free or
      already this entry's. */
  lemma EditCorrectedSucceedsIff(st: Store, key: string, pattern: string, name: string, color: string)
    requires Consistent(st)
    ensures EditCorrected(st, key, pattern, name, color).Ok? <==>
      && key in st.byKey
      && IsValidPatternIntended(pattern) && IsValidColorCode(color)
      && (pattern !in st.byFingerprint || st.byFingerprint[pattern].key == key)
    ensures key !in st.byKey ==> EditCorrected(st, key, pattern, name, color) == Err(UnknownKeyError(key))
  {
    if key in st.byKey && IsValidPatternIntended(pattern) && IsValidColorCode(color)
       && (pattern !in st.byFingerprint || st.byFingerprint[pattern].key == key) {
      RemoveKeepsConsistent(st, key);
    }
  }

  /** A successful corrected edit replaces the key's entry by the new one in
      both maps, the old fingerprint is gone unless it was kept, and the maps
      agree. */
  lemma EditCorrectedKeepsConsistent(st: Store, key: string, pattern: string, name: string, color: string)
    requires Consistent(st)
    requires EditCorrected(st, key, pattern, name, color).Ok?
    ensures var st' := EditCorrected(st, key, pattern, name, color).value;
      && Consistent(st')
      && GetPattern(st', pattern) == Ok(MakePattern(key, name, pattern, color))
      && GetPatternByKey(st', key) == Ok(MakePattern(key, name, pattern, color))
      && (st.byKey[key].fingerprint != pattern ==> st.byKey[key].fingerprint !in st'.byFingerprint)
      && (forall k :: k in st.byKey && k != key ==> k in st'.byKey && st'.byKey[k] == st.byKey[k])
  {
    RemoveKeepsConsistent(st, key);
    var removed := Remove(st, key, st.byKey[key].fingerprint);
    AddCorrectedKeepsConsistent(removed, key, pattern, name, color);
  }

  /** A successful corrected edit keeps the set of keys. */
  lemma EditCorrectedKeepsKeys(st: Store, key: string, pattern: string, name: string, color: string)
    requires EditCorrected(st, key, pattern, name, color).Ok?
    ensures EditCorrected(st, key, pattern, name, color).value.byKey.Keys == st.byKey.Keys
  {
    var oldPattern := st.byKey[key].fingerprint;
    var removed := Remove(st, key, oldPattern);
    assert removed.byKey.Keys == st.byKey.Keys - {key};
  }

  /** Finding: with the source's add_pattern, a new fingerprint under a key
      that is already stored goes into the fingerprint map only, and the maps
      no longer agree (for instance adding key "unknown" with fingerprint
      "1(0,0,0)" to a fresh library). */
  lemma AddAsWrittenBreaksAgreement(st: Store, key: string, pattern: string, name: string, color: string)
    requires Consistent(st)
    requires key in st.byKey && pattern !in st.byFingerprint
    requires IsValidPattern(pattern) && IsValidColorCode(color)
    ensures Add(st, key, pattern, name, color).Ok?
    ensures !Consistent(Add(st, key, pattern, name, color).value)
  {
    var st' := Add(st, key, pattern, name, color).value;
    assert st'.byKey == st.byKey;
    assert st'.byFingerprint[pattern].key == key;
    assert st'.byKey[key].fingerprint != pattern;
  }

  /** The corrected add_pattern refuses the same call and keeps the store. */
  lemma AddRefusesDuplicateKey(st: Store, key: string, pattern: string, name: string, color: string)
    requires Consistent(st)
    requires key in st.byKey && pattern !in st.byFingerprint
    requires IsValidPatternIntended(pattern) && IsValidColorCode(color)
    ensures AddCorrected(st, key, pattern, name, color) == Err(DuplicateKeyError(key))
  {
  }

  /** Finding: with the source's edit_pattern, giving an entry a fingerprint
      that another entry holds raises only after the entry has been removed,
      so the entry is lost (for instance editing "fcc_bulk" to the empty
      fingerprint of the unknown entry). */
  lemma EditAsWrittenLosesEntry(st: Store, key: string, pattern: string, name: string, color: string)
    requires Consistent(st)
    requires key in st.byKey
    requires pattern in st.byFingerprint && st.byFingerprint[pattern].key != key
    requires IsValidPattern(pattern) && IsValidColorCode(color)
    ensures var (after, outcome) := Edit(st, key, pattern, name, color);
      && outcome == Fail(DuplicatePatternError(pattern))
      && key !in after.byKey && st.byKey[key].fingerprint !in after.byFingerprint
  {
  }

  /** The corrected edit_pattern refuses the same call before removing
      anything, so the store is unchanged. */
  lemma EditRefusesCollision(st: Store, key: string, pattern: string, name: string, color: string)
    requires Consistent(st)
    requires key in st.byKey
    requires pattern in st.byFingerprint && st.byFingerprint[pattern].key != key
    requires IsValidPatternIntended(pattern) && IsValidColorCode(color)
    ensures EditCorrected(st, key, pattern, name, color) == Err(DuplicatePatternError(pattern))
  {
  }

  /** The library unit test, replayed on the source's operations: after adding
      "fcc_bulk" to a fresh library both lookups give the same entry; after
      editing it both give the edited entry; and each of the bad calls that
      follow is refused. */
  lemma LibraryTestScenario()
    ensures var initial := Store(map["" := UnknownPattern()], map["unknown" := UnknownPattern()]);
      var added := Add(initial, "fcc_bulk", "12(4,2,1)", "FCC Bulk", "0b3d05");
      && added.Ok?
      && GetPattern(added.value, "12(4,2,1)") == GetPatternByKey(added.value, "fcc_bulk")
      && var (edited, outcome) := Edit(added.value, "fcc_bulk", "12(4,2,2)", "FCC BULK", "0b3d08");
      && outcome == Pass
      && GetPattern(edited, "12(4,2,2)") == Ok(Pattern("fcc_bulk", "FCC BULK", "12(4,2,2)", "0b3d08"))
      && GetPatternByKey(edited, "fcc_bulk") == GetPattern(edited, "12(4,2,2)")
      && Add(edited, "fcc_bulk", "12(4,2,1)a", "FCC Bulk", "0b3d05").Err?
      && Edit(edited, "fcc_bulk", "12(4,2,1)a", "FCC Bulk", "0b3d05").1.Fail?
      && Edit(edited, "non_existing_key", "12(4,2,1)", "FCC Bulk", "0b3d05").1.Fail?
      && Add(edited, "invalid key", "12(4,2,1)", "FCC Bulk", "0b3d05").Err?
      && Add(edited, "invalid key", "12(4,2,1)", "FCC Bulk", "40b3d05").Err?
      && Add(edited, "valid_key", "12(4,2,1)", "FCC Bulk", "40b3d05").Err?
      && Add(edited, "valid_key", "12(4,2,1)", "FCC Bulk", "0b305").Err?
  {
    var initial := Store(map["" := UnknownPattern()], map["unknown" := UnknownPattern()]);
    FreshLibrary();
    LibraryTestFingerprints();
    KeyAndColorExamples();
    assert "fcc_bulk"[0] != "unknown"[0];
    var added := ScenarioAdd(initial, "fcc_bulk", "12(4,2,1)", "FCC Bulk", "0b3d05");
    ScenarioAddedKeys(added);
    var edited := ScenarioEdit(added, "fcc_bulk", "12(4,2,2)", "FCC BULK", "0b3d08");
    ScenarioRefusals(edited);
  }

  lemma ScenarioAdd(initial: Store, key: string, pattern: string, name: string, color: string) returns (added: Store)
    requires initial == Store(map["" := UnknownPattern()], map["unknown" := UnknownPattern()])
    requires Consistent(initial)
    requires IsValidPattern(pattern) && IsValidKey(key) && IsValidColorCode(color)
    requires pattern != "" && key != "unknown"
    ensures Add(initial, key, pattern, name, color) == Ok(added)
    ensures Consistent(added)
    ensures GetPattern(added, pattern) == GetPatternByKey(added, key)
    ensures added.byFingerprint.Keys == {"", pattern} && added.byKey.Keys == {"unknown", key}
  {
    added := AddFresh(initial, key, pattern, name, color);
    ShippedWithinIntended(pattern);
    InsertKeepsConsistent(initial, Pattern(key, name, pattern, color));
  }

  /** After the test's add, the edited fingerprint is still free, fcc_bulk is
      stored and non_existing_key is not. */
  lemma ScenarioAddedKeys(added: Store)
    requires added.byFingerprint.Keys == {"", "12(4,2,1)"} && added.byKey.Keys == {"unknown", "fcc_bulk"}
    ensures "12(4,2,2)" !in added.byFingerprint
    ensures "fcc_bulk" in added.byKey && "non_existing_key" !in added.byKey
  {
    assert "12(4,2,2)"[7] != "12(4,2,1)"[7];
    assert "non_existing_key"[0] != "unknown"[0] && "non_existing_key"[0] != "fcc_bulk"[0];
  }

  /** A valid entry under a fresh fingerprint and a fresh key goes into both maps. */
  lemma AddFresh(st: Store, key: string, pattern: string, name: string, color: string) returns (added: Store)
    requires IsValidPattern(pattern) && IsValidKey(key) && IsValidColorCode(color)
    requires pattern !in st.byFingerprint && key !in st.byKey
    ensures Add(st, key, pattern, name, color) == Ok(added)
    ensures added.byFingerprint == st.byFingerprint[pattern := Pattern(key, name, pattern, color)]
    ensures added.byKey == st.byKey[key := Pattern(key, name, pattern, color)]
  {
    var p := Pattern(key, name, pattern, color);
    added := Store(st.byFingerprint[pattern := p], st.byKey[key := p]);
  }

  lemma ScenarioEdit(added: Store, key: string, pattern: string, name: string, color: string) returns (edited: Store)
    requires Consistent(added)
    requires "12(4,2,2)" !in added.byFingerprint
    requires "fcc_bulk" in added.byKey && "non_existing_key" !in added.byKey
    requires key == "fcc_bulk" && pattern == "12(4,2,2)" && name == "FCC BULK" && color == "0b3d08"
    ensures Edit(added, key, pattern, name, color) == (edited, Pass)
    ensures GetPattern(edited, pattern) == Ok(Pattern(key, name, pattern, color))
    ensures GetPatternByKey(edited, key) == GetPattern(edited, pattern)
    ensures Consistent(edited) && "non_existing_key" !in edited.byKey
  {
    EditedFingerprintAccepted(Shipped);
    KeyAndColorExamples();
    EditSucceedsIff(added, key, pattern, name, color);
    EditKeepsConsistent(added, key, pattern, name, color);
    EditKeepsKeys(added, key, pattern, name, color);
    edited := Edit(added, key, pattern, name, color).0;
  }

  lemma ScenarioRefusals(edited: Store)
    requires "non_existing_key" !in edited.byKey
    ensures Add(edited, "fcc_bulk", "12(4,2,1)a", "FCC Bulk", "0b3d05").Err?
    ensures Edit(edited, "fcc_bulk", "12(4,2,1)a", "FCC Bulk", "0b3d05").1.Fail?
    ensures Edit(edited, "non_existing_key", "12(4,2,1)", "FCC Bulk", "0b3d05").1.Fail?
    ensures Add(edited, "invalid key", "12(4,2,1)", "FCC Bulk", "0b3d05").Err?
    ensures Add(edited, "invalid key", "12(4,2,1)", "FCC Bulk", "40b3d05").Err?
    ensures Add(edited, "valid_key", "12(4,2,1)", "FCC Bulk", "40b3d05").Err?
    ensures Add(edited, "valid_key", "12(4,2,1)", "FCC Bulk", "0b305").Err?
  {
    BadPatternRefused(edited);
    UnknownKeyRefused(edited);
    BadKeyRefused(edited);
    BadColorRefused(edited);
  }

  lemma BadPatternRefused(st: Store)
    ensures Add(st, "fcc_bulk", "12(4,2,1)a", "FCC Bulk", "0b3d05").Err?
    ensures Edit(st, "fcc_bulk", "12(4,2,1)a", "FCC Bulk", "0b3d05").1.Fail?
  {
    LibraryTestFingerprints();
  }

  lemma UnknownKeyRefused(st: Store)
    requires "non_existing_key" !in st.byKey
    ensures Edit(st, "non_existing_key", "12(4,2,1)", "FCC Bulk", "0b3d05") == (st, Fail(UnknownKeyError("non_existing_key")))
  {
  }

  lemma BadKeyRefused(st: Store)
    ensures Add(st, "invalid key", "12(4,2,1)", "FCC Bulk", "0b3d05").Err?
    ensures Add(st, "invalid key", "12(4,2,1)", "FCC Bulk", "40b3d05").Err?
  {
    LibraryTestFingerprints();
    KeyAndColorExamples();
  }

  lemma BadColorRefused(st: Store)
    ensures Add(st, "valid_key", "12(4,2,1)", "FCC Bulk", "40b3d05").Err?
    ensures Add(st, "valid_key", "12(4,2,1)", "FCC Bulk", "0b305").Err?
  {
    LibraryTestFingerprints();
    KeyAndColorExamples();
  }

  /** The library object: the two maps of the source as fields. */
  class Library {
    var patterns: map<string, Pattern>
    var patternsByKey: map<string, Pattern>

    function Current(): Store
      reads this
    {
      Store(patterns, patternsByKey)
    }

    /** The default constructor adds the unknown entry. */
    constructor ()
      ensures Current() == Store(map["" := UnknownPattern()], map["unknown" := UnknownPattern()])
      ensures Consistent(Current())
    {
      patterns := map[];
      patternsByKey := map[];
      new;
      FreshLibrary();
      var _ := AddPattern("unknown", "", "Unknown", "000000");
    }

    method AddPattern(key: string, pattern: string, name: string, color: string) returns (outcome: Outcome<Exception>)
      modifies this
      ensures var r := Add(old(Current()), key, pattern, name, color);
        if r.Ok? then outcome == Pass && Current() == r.value
        else outcome == Fail(r.error) && Current() == old(Current())
      ensures old(Consistent(Current())) && key !in old(patternsByKey) ==> Consistent(Current())
    {
      if Consistent(Current()) && key !in patternsByKey && Add(Current(), key, pattern, name, color).Ok? {
        AddKeepsConsistent(Current(), key, pattern, name, color);
      }
      if !IsValidPattern(pattern) {
        return Fail(InvalidPatternError(pattern));
      }
      if !IsValidKey(key) {
        return Fail(InvalidKeyError(key));
      }
      if !IsValidColorCode(color) {
        return Fail(InvalidColorError(color));
      }
      if pattern in patterns {
        return Fail(DuplicatePatternError(pattern));
      }
      var p := Pattern(key, name, pattern, color);
      patterns := patterns[pattern := p];
      if key !in patternsByKey {
        patternsByKey := patternsByKey[key := p];
      }
      return Pass;
    }

    method RemovePattern(key: string, pattern: string)
      modifies this
      ensures Current() == Remove(old(Current()), key, pattern)
    {
      patterns := patterns - {pattern};
      patternsByKey := patternsByKey - {key};
    }

    method DeletePatternByKey(key: string) returns (outcome: Outcome<Exception>)
      modifies this
      ensures var r := DeleteByKey(old(Current()), key);
        if r.Ok? then outcome == Pass && Current() == r.value
        else outcome == Fail(r.error) && Current() == old(Current())
      ensures old(Consistent(Current())) ==> Consistent(Current())
    {
      if key !in patternsByKey {
        return Fail(UnknownKeyError(key));
      }
      var got := patternsByKey[key];
      assert GetPatternByKey(Current(), key) == Ok(got);
      if Consistent(Current()) {
        DeleteByKeyKeepsConsistent(Current(), key);
      }
      RemovePattern(got.key, got.fingerprint);
      return Pass;
    }

    method EditPattern(key: string, pattern: string, name: string, color: string) returns (outcome: Outcome<Exception>)
      modifies this
      ensures (Current(), outcome) == Edit(old(Current()), key, pattern, name, color)
      ensures old(Consistent(Current())) ==> Consistent(Current())
    {
      if Consistent(Current()) {
        EditKeepsConsistent(Current(), key, pattern, name, color);
      }
      if key !in patternsByKey {
        return Fail(UnknownKeyError(key));
      }
      var oldPattern := patternsByKey[key].fingerprint;
      if !IsValidPattern(pattern) {
        return Fail(InvalidPatternError(pattern));
      }
      if !IsValidColorCode(color) {
        return Fail(InvalidColorError(color));
      }
      RemovePattern(key, oldPattern);
      outcome := AddPattern(key, pattern, name, color);
    }
  }
}
