/**
 * The keyed single-fact overrides: writes that skip empty or null payloads,
 * the per-constraint foreign-key bundle, and the reverse index of foreign
 * keys by referenced table (OverrideRepository.java lines 559-577, 618-706).
 */
module OverrideStore {
  import opened Wrappers
  import opened Keys

  /** No stored string or list is empty: the invariant the skip-empty writes keep. */
  ghost predicate NoEmptyValues<K, T>(m: map<K, seq<T>>) {
    forall k | k in m :: |m[k]| > 0
  }

  /** No stored map is empty: the same invariant for map-valued entries. */
  ghost predicate NoEmptyMaps<K, K2, V>(m: map<K, map<K2, V>>) {
    forall k | k in m :: |m[k]| > 0
  }

  /** `if (isNotEmpty(v)) m.put(k, v)`. */
  function PutIfNotEmpty<K>(m: map<K, string>, k: K, v: Option<string>): (r: map<K, string>)
    ensures NoEmptyValues(m) ==> NoEmptyValues(r)
  {
    if IsNotEmpty(v) then m[k := v.value] else m
  }

  /** `if (v != null) m.put(k, v)`. */
  function PutIfPresent<K, V>(m: map<K, V>, k: K, v: Option<V>): map<K, V> {
    if v.Some? then m[k := v.value] else m
  }

  /** A later write of an empty or null value leaves the earlier one in place. */
  lemma EmptyWriteKeepsEarlier<K>(m: map<K, string>, k: K, earlier: string, later: Option<string>)
    requires |earlier| > 0 && !IsNotEmpty(later)
    ensures PutIfNotEmpty(PutIfNotEmpty(m, k, Some(earlier)), k, later)[k] == earlier
  {
  }

  /**
   * Everything recorded for one constraint name, across the six maps
   * `addForeignKeyInfo` writes; a null field means nothing is recorded.
   */
  datatype ForeignKeyInfo = ForeignKeyInfo(
    toOneProperty: Option<string>,
    excludeToOne: Option<bool>,
    inverseProperty: Option<string>,
    excludeInverse: Option<bool>,
    associationInfo: Option<AssociationInfo>,
    inverseAssociationInfo: Option<AssociationInfo>)

  /** The update carries at least one field `addForeignKeyInfo` would store. */
  predicate Supplies(u: ForeignKeyInfo) {
    || IsNotEmpty(u.toOneProperty) || IsNotEmpty(u.inverseProperty)
    || u.excludeToOne.Some? || u.excludeInverse.Some?
    || u.associationInfo.Some? || u.inverseAssociationInfo.Some?
  }

  function Or<T>(preferred: Option<T>, otherwise: Option<T>): Option<T> {
    if preferred.Some? then preferred else otherwise
  }

  /** The bundle after `addForeignKeyInfo`: each supplied field replaces the
      stored one, every other field is kept. */
  function Merge(stored: ForeignKeyInfo, update: ForeignKeyInfo): (r: ForeignKeyInfo)
    ensures !Supplies(update) ==> r == stored
  {
    ForeignKeyInfo(
      if IsNotEmpty(update.toOneProperty) then update.toOneProperty else stored.toOneProperty,
      Or(update.excludeToOne, stored.excludeToOne),
      if IsNotEmpty(update.inverseProperty) then update.inverseProperty else stored.inverseProperty,
      Or(update.excludeInverse, stored.excludeInverse),
      Or(update.associationInfo, stored.associationInfo),
      Or(update.inverseAssociationInfo, stored.inverseAssociationInfo))
  }

  /** Two sparse updates that supply different fields both survive, in
      either order: the second never erases what the first stored. */
  lemma DisjointUpdatesCommute(stored: ForeignKeyInfo, u1: ForeignKeyInfo, u2: ForeignKeyInfo)
    requires !(IsNotEmpty(u1.toOneProperty) && IsNotEmpty(u2.toOneProperty))
    requires !(IsNotEmpty(u1.inverseProperty) && IsNotEmpty(u2.inverseProperty))
    requires !(u1.excludeToOne.Some? && u2.excludeToOne.Some?)
    requires !(u1.excludeInverse.Some? && u2.excludeInverse.Some?)
    requires !(u1.associationInfo.Some? && u2.associationInfo.Some?)
    requires !(u1.inverseAssociationInfo.Some? && u2.inverseAssociationInfo.Some?)
    ensures Merge(Merge(stored, u1), u2) == Merge(Merge(stored, u2), u1)
    ensures var r := Merge(Merge(stored, u1), u2);
      && (IsNotEmpty(u1.toOneProperty) ==> r.toOneProperty == u1.toOneProperty)
      && (IsNotEmpty(u2.toOneProperty) ==> r.toOneProperty == u2.toOneProperty)
      && (IsNotEmpty(u1.inverseProperty) ==> r.inverseProperty == u1.inverseProperty)
      && (IsNotEmpty(u2.inverseProperty) ==> r.inverseProperty == u2.inverseProperty)
      && (u1.excludeToOne.Some? ==> r.excludeToOne == u1.excludeToOne)
      && (u2.excludeToOne.Some? ==> r.excludeToOne == u2.excludeToOne)
      && (u1.excludeInverse.Some? ==> r.excludeInverse == u1.excludeInverse)
      && (u2.excludeInverse.Some? ==> r.excludeInverse == u2.excludeInverse)
      && (u1.associationInfo.Some? ==> r.associationInfo == u1.associationInfo)
      && (u2.associationInfo.Some? ==> r.associationInfo == u2.associationInfo)
      && (u1.inverseAssociationInfo.Some? ==> r.inverseAssociationInfo == u1.inverseAssociationInfo)
      && (u2.inverseAssociationInfo.Some? ==> r.inverseAssociationInfo == u2.inverseAssociationInfo)
  {
  }

  /** The bundle recorded for constraint `c` across the six maps. */
  function InfoAt(toOneName: map<string, string>, toOneExclude: map<string, bool>,
                  inverseName: map<string, string>, inverseExclude: map<string, bool>,
                  entityInfo: map<string, AssociationInfo>, inverseEntityInfo: map<string, AssociationInfo>,
                  c: string): ForeignKeyInfo
  {
    ForeignKeyInfo(Get(toOneName, c), Get(toOneExclude, c), Get(inverseName, c), Get(inverseExclude, c),
                   Get(entityInfo, c), Get(inverseEntityInfo, c))
  }

  /** Writing `u` under `name` through the six skip-null/skip-empty puts
      merges it into `name`'s bundle and leaves every other bundle as it was. */
  lemma SparseWriteMerges(toOneName: map<string, string>, toOneExclude: map<string, bool>,
                          inverseName: map<string, string>, inverseExclude: map<string, bool>,
                          entityInfo: map<string, AssociationInfo>, inverseEntityInfo: map<string, AssociationInfo>,
                          name: string, u: ForeignKeyInfo, c: string)
    ensures InfoAt(PutIfNotEmpty(toOneName, name, u.toOneProperty), PutIfPresent(toOneExclude, name, u.excludeToOne),
                   PutIfNotEmpty(inverseName, name, u.inverseProperty), PutIfPresent(inverseExclude, name, u.excludeInverse),
                   PutIfPresent(entityInfo, name, u.associationInfo),
                   PutIfPresent(inverseEntityInfo, name, u.inverseAssociationInfo), c)
            == if c == name
               then Merge(InfoAt(toOneName, toOneExclude, inverseName, inverseExclude, entityInfo, inverseEntityInfo, c), u)
               else InfoAt(toOneName, toOneExclude, inverseName, inverseExclude, entityInfo, inverseEntityInfo, c)
  {
  }

  /** Foreign keys grouped by the identifier of the table they reference. */
  type ForeignKeyIndex = map<TableIdentifier, seq<ForeignKey>>

  /** One step of `addTable`'s loop: `fk` appended to its referenced table's list. */
  function WithForeignKey(idx: ForeignKeyIndex, fk: ForeignKey): ForeignKeyIndex {
    idx[fk.referencedTable := ListAt(idx, fk.referencedTable) + [fk]]
  }

  /** The index after the loop has appended every key of `fks`, in order. */
  function Indexed(idx: ForeignKeyIndex, fks: seq<ForeignKey>): ForeignKeyIndex
    decreases |fks|
  {
    if fks == [] then idx else WithForeignKey(Indexed(idx, fks[..|fks| - 1]), fks[|fks| - 1])
  }

  /** The keys of `fks` that reference `t`, in their order in `fks`. */
  function Referencing(fks: seq<ForeignKey>, t: TableIdentifier): (r: seq<ForeignKey>)
    ensures |r| <= |fks|
    ensures forall i | 0 <= i < |r| :: r[i].referencedTable == t && r[i] in fks
    ensures |r| == 0 <==> forall i | 0 <= i < |fks| :: fks[i].referencedTable != t
    decreases |fks|
  {
    if fks == [] then []
    else
      var rest := Referencing(fks[1..], t);
      assert forall i | 0 < i < |fks| :: fks[i] == fks[1..][i - 1];
      if fks[0].referencedTable == t then [fks[0]] + rest else rest
  }

  lemma {:induction false} ReferencingAppend(fks: seq<ForeignKey>, fk: ForeignKey, t: TableIdentifier)
    ensures Referencing(fks + [fk], t) == Referencing(fks, t) + if fk.referencedTable == t then [fk] else []
    decreases |fks|
  {
    if fks != [] {
      assert (fks + [fk])[1..] == fks[1..] + [fk];
      ReferencingAppend(fks[1..], fk, t);
    }
  }

  /** The reverse index in full: each table's list grows by exactly the new
      keys that reference it, in their order. */
  lemma {:induction false} IndexedLookup(idx: ForeignKeyIndex, fks: seq<ForeignKey>, t: TableIdentifier)
    ensures ListAt(Indexed(idx, fks), t) == ListAt(idx, t) + Referencing(fks, t)
    decreases |fks|
  {
    if fks != [] {
      var init, last := fks[..|fks| - 1], fks[|fks| - 1];
      assert fks == init + [last];
      assert Indexed(idx, fks) == WithForeignKey(Indexed(idx, init), last);
      IndexedLookup(idx, init, t);
      ReferencingAppend(init, last, t);
    }
  }

  /** A table gains an entry in the reverse index iff some new key references it. */
  lemma {:induction false} IndexedKeys(idx: ForeignKeyIndex, fks: seq<ForeignKey>)
    ensures Indexed(idx, fks).Keys == idx.Keys + set i | 0 <= i < |fks| :: fks[i].referencedTable
    decreases |fks|
  {
    if fks != [] {
      var init, last := fks[..|fks| - 1], fks[|fks| - 1];
      assert Indexed(idx, fks) == WithForeignKey(Indexed(idx, init), last);
      IndexedKeys(idx, init);
      var added := set i | 0 <= i < |fks| :: fks[i].referencedTable;
      var addedInit := set i | 0 <= i < |init| :: init[i].referencedTable;
      assert added == addedInit + {last.referencedTable} by {
        forall x | x in added ensures x in addedInit + {last.referencedTable} {
          var i :| 0 <= i < |fks| && fks[i].referencedTable == x;
          if i < |init| { assert init[i] == fks[i]; }
        }
        forall x | x in addedInit ensures x in added {
          var i :| 0 <= i < |init| && init[i].referencedTable == x;
          assert fks[i] == init[i];
        }
        assert fks[|fks| - 1] == last;
      }
    }
  }

  /** Every list is non-empty and holds only keys referencing its table. */
  ghost predicate IndexWellKeyed(idx: ForeignKeyIndex) {
    forall t | t in idx :: |idx[t]| > 0 && forall i | 0 <= i < |idx[t]| :: idx[t][i].referencedTable == t
  }

  lemma IndexedKeepsWellKeyed(idx: ForeignKeyIndex, fks: seq<ForeignKey>)
    requires IndexWellKeyed(idx)
    ensures IndexWellKeyed(Indexed(idx, fks))
  {
    IndexedKeys(idx, fks);
    var r: ForeignKeyIndex := Indexed(idx, fks);
    forall t | t in r
      ensures |r[t]| > 0 && forall i | 0 <= i < |r[t]| :: r[t][i].referencedTable == t
    {
      IndexedLookup(idx, fks, t);
      assert r[t] == ListAt(idx, t) + Referencing(fks, t);
      if t !in idx {
        var i :| 0 <= i < |fks| && fks[i].referencedTable == t;
      }
    }
  }
}
