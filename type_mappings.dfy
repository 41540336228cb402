/**
 * Type-mapping rules: buckets of `SQLTypeMapping` candidates keyed by
 * (JDBC type code, declared length), and the lookup that picks a Hibernate
 * type name for a column (OverrideRepository.java lines 167-232).
 */
module TypeMappings {
  import opened Wrappers

  /** `SQLTypeMapping.UNKNOWN_LENGTH`, which is `Integer.MAX_VALUE`. */
  const UNKNOWN_LENGTH: int := 0x7FFF_FFFF

  /** A bucket key; equal iff both type code and length are equal. */
  datatype TypeMappingKey = TypeMappingKey(sqlType: int, length: int)

  /** What a column presents to the type-mapping rules. */
  datatype ColumnType = ColumnType(sqlType: int, length: int, precision: int, scale: int, nullable: bool)

  /**
   * One candidate rule. `accepts` is `SQLTypeMapping.match` for this
   * rule (its length, precision, scale and nullability ranges), which is
   * not part of this model and is taken as given.
   */
  datatype SQLTypeMapping = SQLTypeMapping(jdbcType: int, length: int, hibernateType: string, accepts: ColumnType -> bool)

  type Buckets = map<TypeMappingKey, seq<SQLTypeMapping>>

  /** The key a rule is filed under (`new TypeMappingKey(sqltype)`). */
  function KeyOf(m: SQLTypeMapping): TypeMappingKey {
    TypeMappingKey(m.jdbcType, m.length)
  }

  /** Every bucket is non-empty and holds only rules filed under its own key. */
  ghost predicate WellKeyed(tm: Buckets) {
    forall k | k in tm :: |tm[k]| > 0 && forall i | 0 <= i < |tm[k]| :: KeyOf(tm[k][i]) == k
  }

  /** The buckets after `addTypeMapping(m)`: `m` goes to the end of its own bucket. */
  function WithMapping(tm: Buckets, m: SQLTypeMapping): (r: Buckets)
    ensures r.Keys == tm.Keys + {KeyOf(m)}
    ensures r[KeyOf(m)] == ListAt(tm, KeyOf(m)) + [m]
    ensures forall k | k in tm && k != KeyOf(m) :: r[k] == tm[k]
    ensures WellKeyed(tm) ==> WellKeyed(r)
  {
    tm[KeyOf(m) := ListAt(tm, KeyOf(m)) + [m]]
  }

  /** The bucket consulted for a column: the exact (type, length) bucket if
      one exists, else the (type, UNKNOWN_LENGTH) bucket, else none. */
  function SelectBucket(tm: Buckets, col: ColumnType): Option<seq<SQLTypeMapping>> {
    var exact := TypeMappingKey(col.sqlType, col.length);
    if exact in tm then Some(tm[exact])
    else Get(tm, TypeMappingKey(col.sqlType, UNKNOWN_LENGTH))
  }

  /** The scan of one bucket: first accepting rule in order wins, and the
      first rule with another type code ends the scan with no answer. */
  function FirstMatch(col: ColumnType, l: seq<SQLTypeMapping>): Option<string>
    decreases |l|
  {
    if l == [] then None
    else if l[0].jdbcType != col.sqlType then None
    else if l[0].accepts(col) then Some(l[0].hibernateType)
    else FirstMatch(col, l[1..])
  }

  /** `getPreferredHibernateType`: the scan of the consulted bucket. */
  function PreferredHibernateType(tm: Buckets, col: ColumnType): Option<string> {
    match SelectBucket(tm, col)
    case None => None
    case Some(l) => FirstMatch(col, l)
  }

  /** Rule `i` has the column's type code and accepts the column. */
  predicate MatchesAt(col: ColumnType, l: seq<SQLTypeMapping>, i: int)
    requires 0 <= i < |l|
  {
    l[i].jdbcType == col.sqlType && l[i].accepts(col)
  }

  /** Rule `i` is the first accepting rule and every rule before it has the
      column's type code (so the scan reaches it). */
  predicate IsFirstMatch(col: ColumnType, l: seq<SQLTypeMapping>, i: int) {
    && 0 <= i < |l|
    && MatchesAt(col, l, i)
    && forall j | 0 <= j < i :: l[j].jdbcType == col.sqlType && !l[j].accepts(col)
  }

  /** The scan, stated without recursion: it answers exactly when some rule is
      the first reachable accepting one, and then with that rule's type. */
  lemma {:induction false} FirstMatchSpec(col: ColumnType, l: seq<SQLTypeMapping>)
    ensures FirstMatch(col, l).Some? <==> exists i :: IsFirstMatch(col, l, i)
    ensures forall i | IsFirstMatch(col, l, i) :: FirstMatch(col, l) == Some(l[i].hibernateType)
    decreases |l|
  {
    if l != [] && l[0].jdbcType == col.sqlType && !l[0].accepts(col) {
      FirstMatchSpec(col, l[1..]);
      forall i | IsFirstMatch(col, l, i)
        ensures i > 0 && IsFirstMatch(col, l[1..], i - 1)
      {
        assert i != 0;
      }
      if FirstMatch(col, l).Some? {
        var i :| IsFirstMatch(col, l[1..], i);
        assert IsFirstMatch(col, l, i + 1);
      }
    } else if l != [] && l[0].jdbcType == col.sqlType {
      assert IsFirstMatch(col, l, 0);
    } else if l != [] {
      forall i | 0 <= i < |l| ensures !IsFirstMatch(col, l, i) {
        if i > 0 {
          assert 0 < i && l[0].jdbcType != col.sqlType;
        }
      }
    }
  }

  /** A rule with another type code stops the scan: if no rule before
      position `j` accepts the column and rule `j` has a different code, the
      scan gives no answer, whatever the rules after `j` would accept. */
  lemma {:induction false} MismatchStopsScan(col: ColumnType, l: seq<SQLTypeMapping>, j: nat)
    requires j < |l| && l[j].jdbcType != col.sqlType
    requires forall i | 0 <= i < j :: !MatchesAt(col, l, i)
    ensures FirstMatch(col, l) == None
    decreases j
  {
    if l[0].jdbcType == col.sqlType {
      assert !MatchesAt(col, l, 0);
      assert j > 0;
      forall i | 0 <= i < j - 1 ensures !MatchesAt(col, l[1..], i) {
        assert !MatchesAt(col, l, i + 1);
      }
      MismatchStopsScan(col, l[1..], j - 1);
    }
  }

  /** In a bucket whose rules all carry the column's type code the scan never
      stops early: it answers iff some rule accepts the column. */
  lemma {:induction false} UniformBucketScan(col: ColumnType, l: seq<SQLTypeMapping>)
    requires forall i | 0 <= i < |l| :: l[i].jdbcType == col.sqlType
    ensures FirstMatch(col, l).Some? <==> exists i | 0 <= i < |l| :: l[i].accepts(col)
    decreases |l|
  {
    if l != [] && !l[0].accepts(col) {
      UniformBucketScan(col, l[1..]);
      if i :| 0 <= i < |l| && l[i].accepts(col) {
        assert l[1..][i - 1].accepts(col);
      }
    }
  }

  /** Rules appended to a bucket never displace an answer the bucket already
      gives: insertion order decides. */
  lemma {:induction false} AppendKeepsAnswer(col: ColumnType, l: seq<SQLTypeMapping>, more: seq<SQLTypeMapping>)
    requires FirstMatch(col, l).Some?
    ensures FirstMatch(col, l + more) == FirstMatch(col, l)
    decreases |l|
  {
    if !l[0].accepts(col) {
      assert (l + more)[1..] == l[1..] + more;
      AppendKeepsAnswer(col, l[1..], more);
    }
  }

  /** A rule appended to a bucket none of whose rules accepts the column, and
      all of whose rules carry the column's code, answers when it accepts. */
  lemma {:induction false} AppendedRuleReached(col: ColumnType, l: seq<SQLTypeMapping>, m: SQLTypeMapping)
    requires forall i | 0 <= i < |l| :: l[i].jdbcType == col.sqlType && !l[i].accepts(col)
    requires m.jdbcType == col.sqlType && m.accepts(col)
    ensures FirstMatch(col, l + [m]) == Some(m.hibernateType)
    decreases |l|
  {
    if l != [] {
      assert (l + [m])[1..] == l[1..] + [m];
      AppendedRuleReached(col, l[1..], m);
    }
  }

  /** In well-keyed buckets every rule of bucket (t, n) has type code t. */
  lemma BucketRulesHaveItsType(tm: Buckets, k: TypeMappingKey, i: int)
    requires WellKeyed(tm) && k in tm && 0 <= i < |tm[k]|
    ensures tm[k][i].jdbcType == k.sqlType
  {
  }

  /** An exact (type, length) bucket shadows the UNKNOWN_LENGTH bucket: with
      one present, the lookup answers iff some rule of the exact bucket
      accepts the column, whatever the UNKNOWN_LENGTH bucket holds. */
  lemma ExactBucketShadowsUnknown(tm: Buckets, col: ColumnType)
    requires WellKeyed(tm)
    requires TypeMappingKey(col.sqlType, col.length) in tm
    ensures var exact := tm[TypeMappingKey(col.sqlType, col.length)];
            PreferredHibernateType(tm, col).Some? <==> exists i | 0 <= i < |exact| :: exact[i].accepts(col)
    ensures PreferredHibernateType(tm, col) == FirstMatch(col, tm[TypeMappingKey(col.sqlType, col.length)])
  {
    var k := TypeMappingKey(col.sqlType, col.length);
    forall i | 0 <= i < |tm[k]| ensures tm[k][i].jdbcType == col.sqlType {
      BucketRulesHaveItsType(tm, k, i);
    }
    UniformBucketScan(col, tm[k]);
  }

  /** Without an exact bucket, the UNKNOWN_LENGTH bucket decides, and with
      neither there is no answer. */
  lemma UnknownLengthFallback(tm: Buckets, col: ColumnType)
    requires WellKeyed(tm)
    requires TypeMappingKey(col.sqlType, col.length) !in tm
    ensures var unknown := ListAt(tm, TypeMappingKey(col.sqlType, UNKNOWN_LENGTH));
            PreferredHibernateType(tm, col).Some? <==> exists i | 0 <= i < |unknown| :: unknown[i].accepts(col)
    ensures PreferredHibernateType(tm, col) ==
              if TypeMappingKey(col.sqlType, UNKNOWN_LENGTH) in tm
              then FirstMatch(col, tm[TypeMappingKey(col.sqlType, UNKNOWN_LENGTH)])
              else None
  {
    var k := TypeMappingKey(col.sqlType, UNKNOWN_LENGTH);
    if k in tm {
      forall i | 0 <= i < |tm[k]| ensures tm[k][i].jdbcType == col.sqlType {
        BucketRulesHaveItsType(tm, k, i);
      }
      UniformBucketScan(col, tm[k]);
    }
  }
}
