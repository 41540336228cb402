/** Dotted class names: `StringHelper.qualify` and `StringHelper.unqualify`. */
module Names {
  import opened Wrappers

  /** `qualify(prefix, name)`: the two joined by a dot. */
  function Qualify(prefix: string, name: string): (r: string)
    ensures |r| == |prefix| + 1 + |name| && r[|prefix|] == '.'
  {
    prefix + "." + name
  }

  /** Position of the last '.' in `s`, or null when `s` has none. */
  function LastDot(s: string): (r: Option<nat>)
    ensures r.None? <==> '.' !in s
    ensures r.Some? ==> r.value < |s| && s[r.value] == '.' && '.' !in s[r.value + 1..]
    decreases |s|
  {
    if s == [] then None
    else if s[|s| - 1] == '.' then Some(|s| - 1)
    else
      var r := LastDot(s[..|s| - 1]);
      assert s == s[..|s| - 1] + [s[|s| - 1]];
      r
  }

  /** `unqualify(s)`: what follows the last '.', or all of `s` without one. */
  function Unqualify(s: string): (r: string)
    ensures '.' !in r
    ensures '.' !in s ==> r == s
  {
    match LastDot(s)
    case None => s
    case Some(i) => s[i + 1..]
  }

  /** Qualifying a simple name and unqualifying the result gives it back. */
  lemma UnqualifyQualify(prefix: string, name: string)
    requires '.' !in name
    ensures Unqualify(Qualify(prefix, name)) == name
  {
    var s := Qualify(prefix, name);
    assert s[|prefix| + 1..] == name;
  }
}
