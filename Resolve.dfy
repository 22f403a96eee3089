/**
 * Column and sheet resolution: pick_col, ensure_cols and the sheet check of
 * read_excel. A name matches a candidate spelling when their norm_key agree;
 * when several real names share a key the last one wins, as in the dict
 * comprehension that builds the lookup table.
 */
module Resolve {
  import opened Wrappers
  import opened Text
  import opened Keys
  import opened Seqs

  /** Some real name in names normalises to k. */
  ghost predicate HasKey(key: string -> string, names: seq<string>, k: string) {
    exists j :: 0 <= j < |names| && key(names[j]) == k
  }

  /** c is the last of names whose key is k. */
  ghost predicate LastWithKey(key: string -> string, names: seq<string>, k: string, c: string) {
    exists j :: 0 <= j < |names| && names[j] == c && key(c) == k &&
      forall j' :: j < j' < |names| ==> key(names[j']) != k
  }

  /** {norm_key(c): c for c in names}: each key maps to the last name that has it. */
  function NormMap(key: string -> string, names: seq<string>): (m: map<string, string>)
    ensures forall k :: k in m <==> HasKey(key, names, k)
    ensures forall k :: k in m ==> LastWithKey(key, names, k, m[k])
  {
    if names == [] then map[]
    else
      var init, last := names[..|names| - 1], names[|names| - 1];
      assert names == init + [last];
      NormMapStep(key, init, last, NormMap(key, init));
      NormMap(key, init)[key(last) := last]
  }

  /** Adding one name keeps the lookup table's two properties. */
  lemma NormMapStep(key: string -> string, init: seq<string>, last: string, m0: map<string, string>)
    requires forall k :: k in m0 <==> HasKey(key, init, k)
    requires forall k :: k in m0 ==> LastWithKey(key, init, k, m0[k])
    ensures var m := m0[key(last) := last];
      (forall k :: k in m <==> HasKey(key, init + [last], k)) &&
      (forall k :: k in m ==> LastWithKey(key, init + [last], k, m[k]))
  {
    var names := init + [last];
    var m := m0[key(last) := last];
    forall k ensures k in m <==> HasKey(key, names, k) {
      if HasKey(key, names, k) {
        var j :| 0 <= j < |names| && key(names[j]) == k;
        if j < |init| { assert init[j] == names[j]; }
      }
      if k in m0 {
        var j :| 0 <= j < |init| && key(init[j]) == k;
        assert names[j] == init[j];
      }
      assert key(names[|init|]) == key(last);
    }
    forall k | k in m ensures LastWithKey(key, names, k, m[k]) {
      if k == key(last) {
        assert names[|init|] == last;
      } else {
        var j :| 0 <= j < |init| && init[j] == m0[k] && key(m0[k]) == k &&
          forall j' :: j < j' < |init| ==> key(init[j']) != k;
        assert names[j] == init[j];
        forall j' | j < j' < |names| ensures key(names[j']) != k {
          if j' < |init| { assert names[j'] == init[j']; }
        }
      }
    }
  }

  /**
   * The outcome pick_col promises: None when no candidate's key is the key of
   * any real name; otherwise the first candidate (in order) that has a match
   * decides, and the name returned is the last real name with that key.
   */
  ghost predicate Picked(key: string -> string, names: seq<string>, cands: seq<string>, r: Option<string>) {
    match r
    case None => forall i :: 0 <= i < |cands| ==> !HasKey(key, names, key(cands[i]))
    case Some(c) =>
      exists i :: 0 <= i < |cands| && HasKey(key, names, key(cands[i])) &&
        (forall h :: 0 <= h < i ==> !HasKey(key, names, key(cands[h]))) &&
        LastWithKey(key, names, key(cands[i]), c)
  }

  /** No candidate spelling matches any real name. */
  ghost predicate Unmatched(key: string -> string, names: seq<string>, cands: seq<string>) {
    forall i :: 0 <= i < |cands| ==> !HasKey(key, names, key(cands[i]))
  }

  /** Picked leaves no choice: at most one outcome satisfies it. */
  lemma PickedUnique(key: string -> string, names: seq<string>, cands: seq<string>, r1: Option<string>, r2: Option<string>)
    requires Picked(key, names, cands, r1) && Picked(key, names, cands, r2)
    ensures r1 == r2
  {
    if r1.Some? && r2.Some? {
      var i1 :| 0 <= i1 < |cands| && HasKey(key, names, key(cands[i1])) &&
        (forall h :: 0 <= h < i1 ==> !HasKey(key, names, key(cands[h]))) &&
        LastWithKey(key, names, key(cands[i1]), r1.value);
      var i2 :| 0 <= i2 < |cands| && HasKey(key, names, key(cands[i2])) &&
        (forall h :: 0 <= h < i2 ==> !HasKey(key, names, key(cands[h]))) &&
        LastWithKey(key, names, key(cands[i2]), r2.value);
      assert i1 == i2;
      var k := key(cands[i1]);
      var j1 :| 0 <= j1 < |names| && names[j1] == r1.value && key(r1.value) == k &&
        forall j' :: j1 < j' < |names| ==> key(names[j']) != k;
      var j2 :| 0 <= j2 < |names| && names[j2] == r2.value && key(r2.value) == k &&
        forall j' :: j2 < j' < |names| ==> key(names[j']) != k;
      assert j1 == j2;
    }
  }

  /**
   * Only the keys of the candidates matter: candidate lists whose spellings
   * have the same keys, one by one, pick the same column.
   */
  lemma PickedSameKeys(key: string -> string, names: seq<string>, cands: seq<string>, cands': seq<string>,
                       r: Option<string>)
    requires |cands| == |cands'|
    requires forall i :: 0 <= i < |cands| ==> key(cands[i]) == key(cands'[i])
    ensures Picked(key, names, cands, r) <==> Picked(key, names, cands', r)
  {
    if r.Some? && Picked(key, names, cands, r) {
      var i :| 0 <= i < |cands| && HasKey(key, names, key(cands[i])) &&
        (forall h :: 0 <= h < i ==> !HasKey(key, names, key(cands[h]))) &&
        LastWithKey(key, names, key(cands[i]), r.value);
      assert key(cands'[i]) == key(cands[i]);
    }
    if r.Some? && Picked(key, names, cands', r) {
      var i :| 0 <= i < |cands'| && HasKey(key, names, key(cands'[i])) &&
        (forall h :: 0 <= h < i ==> !HasKey(key, names, key(cands'[h]))) &&
        LastWithKey(key, names, key(cands'[i]), r.value);
      assert key(cands'[i]) == key(cands[i]);
    }
  }

  /** pick_col: the real column for the first candidate spelling that matches. */
  method PickCol(key: string -> string, cols: seq<string>, cands: seq<string>) returns (r: Option<string>)
    ensures Picked(key, cols, cands, r)
    ensures r.None? <==> Unmatched(key, cols, cands)
  {
    var normMap := NormMap(key, cols);
    for i := 0 to |cands|
      invariant forall h :: 0 <= h < i ==> !HasKey(key, cols, key(cands[h]))
    {
      var k := key(cands[i]);
      if k in normMap {
        return Some(normMap[k]);
      }
    }
    return None;
  }

  /** A name that is the last with some key is one of the names. */
  lemma LastWithKeyIn(key: string -> string, names: seq<string>, k: string, c: string)
    requires LastWithKey(key, names, k, c)
    ensures c in names
  {
  }

  /** A canonical-name-to-candidates table, in dict order. */
  type Mapping = seq<(string, seq<string>)>

  /** The canonical names of a mapping are distinct, as dict keys are. */
  ghost predicate DistinctCanon(mapping: Mapping) {
    forall i, j :: 0 <= i < j < |mapping| ==> mapping[i].0 != mapping[j].0
  }

  /** Every canonical name of the mapping has a resolved column. */
  ghost predicate Covers(cols: map<string, string>, mapping: Mapping) {
    forall i :: 0 <= i < |mapping| ==> mapping[i].0 in cols
  }

  /** The canonical names that have no matching column, in mapping order. */
  ghost function MissingCanon(key: string -> string, cols: seq<string>, mapping: Mapping): seq<string> {
    if mapping == [] then []
    else
      var init, last := mapping[..|mapping| - 1], mapping[|mapping| - 1];
      MissingCanon(key, cols, init) + (if Unmatched(key, cols, last.1) then [last.0] else [])
  }

  /** MissingCanon lists exactly the unmatched canonical names. */
  lemma {:induction false} MissingCanonMembers(key: string -> string, cols: seq<string>, mapping: Mapping, x: string)
    ensures x in MissingCanon(key, cols, mapping) <==>
      exists i :: 0 <= i < |mapping| && mapping[i].0 == x && Unmatched(key, cols, mapping[i].1)
    decreases |mapping|
  {
    if mapping != [] {
      var init := mapping[..|mapping| - 1];
      MissingCanonMembers(key, cols, init, x);
      if x in MissingCanon(key, cols, init) {
        var i :| 0 <= i < |init| && init[i].0 == x && Unmatched(key, cols, init[i].1);
        assert mapping[i] == init[i];
      }
      if exists i :: 0 <= i < |mapping| && mapping[i].0 == x && Unmatched(key, cols, mapping[i].1) {
        var i :| 0 <= i < |mapping| && mapping[i].0 == x && Unmatched(key, cols, mapping[i].1);
        if i < |init| { assert init[i] == mapping[i]; }
      }
    }
  }

  /** Nothing is missing exactly when every canonical name has a match. */
  lemma MissingCanonEmpty(key: string -> string, cols: seq<string>, mapping: Mapping)
    ensures MissingCanon(key, cols, mapping) == [] <==>
      forall i :: 0 <= i < |mapping| ==> !Unmatched(key, cols, mapping[i].1)
  {
    if MissingCanon(key, cols, mapping) != [] {
      MissingCanonMembers(key, cols, mapping, MissingCanon(key, cols, mapping)[0]);
    }
    if exists i :: 0 <= i < |mapping| && Unmatched(key, cols, mapping[i].1) {
      var i :| 0 <= i < |mapping| && Unmatched(key, cols, mapping[i].1);
      MissingCanonMembers(key, cols, mapping, mapping[i].0);
    }
  }

  /**
   * What a successful ensure_cols returns: exactly the canonical names as
   * keys, each bound to the column pick_col finds for its candidates.
   */
  ghost predicate Resolved(key: string -> string, cols: seq<string>, mapping: Mapping, m: map<string, string>) {
    (forall k :: k in m <==> exists i :: 0 <= i < |mapping| && mapping[i].0 == k) &&
    (forall i :: 0 <= i < |mapping| ==> Picked(key, cols, mapping[i].1, Some(m[mapping[i].0])))
  }

  /** The columns and the mapping determine the resolved map. */
  lemma ResolvedUnique(key: string -> string, cols: seq<string>, mapping: Mapping,
                       m1: map<string, string>, m2: map<string, string>)
    requires Resolved(key, cols, mapping, m1) && Resolved(key, cols, mapping, m2)
    ensures m1 == m2
  {
    forall k | k in m1 ensures k in m2 && m1[k] == m2[k] {
      var i :| 0 <= i < |mapping| && mapping[i].0 == k;
      PickedUnique(key, cols, mapping[i].1, Some(m1[k]), Some(m2[k]));
    }
  }

  /**
   * ensure_cols: either every canonical name resolves (and the map holds
   * exactly the canonical names, each bound to its picked column) or the whole
   * resolution fails with every unmatched canonical name, in mapping order.
   */
  method EnsureCols(key: string -> string, cols: seq<string>, mapping: Mapping) returns (res: Result<map<string, string>, seq<string>>)
    requires DistinctCanon(mapping)
    ensures res.Failure? <==> exists i :: 0 <= i < |mapping| && Unmatched(key, cols, mapping[i].1)
    ensures res.Failure? ==> res.error == MissingCanon(key, cols, mapping)
    ensures res.Success? ==> Covers(res.value, mapping)
    ensures res.Success? ==> Resolved(key, cols, mapping, res.value)
  {
    var resolved: map<string, string> := map[];
    var missing: seq<string> := [];
    for i := 0 to |mapping|
      invariant missing == MissingCanon(key, cols, mapping[..i])
      invariant forall k :: k in resolved <==>
        exists h :: 0 <= h < i && mapping[h].0 == k && !Unmatched(key, cols, mapping[h].1)
      invariant forall h :: 0 <= h < i && !Unmatched(key, cols, mapping[h].1) ==>
        mapping[h].0 in resolved && Picked(key, cols, mapping[h].1, Some(resolved[mapping[h].0]))
    {
      var canon, cands := mapping[i].0, mapping[i].1;
      assert mapping[..i + 1][..i] == mapping[..i];
      var found := PickCol(key, cols, cands);
      if found.None? {
        missing := missing + [canon];
      } else {
        resolved := resolved[canon := found.value];
      }
    }
    assert mapping[..|mapping|] == mapping;
    MissingCanonEmpty(key, cols, mapping);
    if |missing| > 0 {
      return Failure(missing);
    }
    return Success(resolved);
  }

  // ---------------------------------------------------------------------------
  // Sheets
  // ---------------------------------------------------------------------------

  const Coletas: string := "coletas"
  const Entregas: string := "entregas"

  /** REQUIRED_SHEETS. */
  const RequiredSheets: seq<string> := [Coletas, Entregas]

  lemma ColetasLetters()
    ensures forall i :: 0 <= i < |Coletas| ==> 'a' <= Coletas[i] <= 'z'
  {
  }

  lemma EntregasLetters()
    ensures forall i :: 0 <= i < |Entregas| ==> 'a' <= Entregas[i] <= 'z'
  {
  }

  /**
   * The required sheet names are their own keys, so norm_key of each is the
   * literal name that the sheet lookup uses.
   */
  lemma RequiredSheetKeys()
    ensures Key(Coletas) == Coletas && Key(Entregas) == Entregas
  {
    ColetasLetters();
    LowerWordKey(Coletas);
    EntregasLetters();
    LowerWordKey(Entregas);
  }

  /**
   * The sheet check of read_excel: every required sheet whose key is absent
   * is reported, together and in REQUIRED_SHEETS order; otherwise the real
   * names of the coletas and entregas sheets (the last sheet with each key),
   * looked up by the literal names, which key must leave unchanged.
   */
  function CheckSheets(key: string -> string, sheetNames: seq<string>): (r: Result<(string, string), seq<string>>)
    requires key(Coletas) == Coletas && key(Entregas) == Entregas
    ensures r.Failure? <==> !HasKey(key, sheetNames, key(Coletas)) || !HasKey(key, sheetNames, key(Entregas))
    ensures r.Failure? ==> (r.error ==
      (if HasKey(key, sheetNames, key(Coletas)) then [] else [Coletas]) +
      (if HasKey(key, sheetNames, key(Entregas)) then [] else [Entregas]))
    ensures r.Success? ==>
      (LastWithKey(key, sheetNames, key(Coletas), r.value.0) && LastWithKey(key, sheetNames, key(Entregas), r.value.1))
  {
    var sheetMap := NormMap(key, sheetNames);
    var absent := s => key(s) !in sheetMap;
    var missing := Filter(RequiredSheets, absent);
    assert missing ==
      (if key(Coletas) in sheetMap then [] else [Coletas]) + (if key(Entregas) in sheetMap then [] else [Entregas]) by {
      assert RequiredSheets[1..] == [Entregas] && [Entregas][1..] == [];
      assert Filter([Entregas], absent) == (if absent(Entregas) then [Entregas] else []) + Filter([], absent);
    }
    if |missing| > 0 then Failure(missing)
    else Success((sheetMap[Coletas], sheetMap[Entregas]))
  }
}
