/**
 * Inclusion patterns: the regular-expression engine the feature relies on,
 * the whole-string "any of these patterns" test every scanner uses, and an
 * order-keeping filter over name listings.
 */
module Patterns {

  /**
   * The regular-expression library the feature calls but does not implement.
   * `compiles(p)` holds when the pattern source `p` is accepted by the
   * compiler; `fullMatch(p, s)` holds when the compiled `p` matches the whole
   * of `s` (not a substring of it).
   */
  datatype Engine = Engine(compiles: string -> bool, fullMatch: (string, string) -> bool)

  /**
   * A path is selected by a pattern array when some pattern in it matches
   * the whole path; an empty array selects nothing.
   */
  function Matches(eng: Engine, pats: seq<string>, path: string): (r: bool)
    ensures r <==> exists i :: 0 <= i < |pats| && eng.fullMatch(pats[i], path)
    ensures |pats| == 0 ==> !r
  {
    if |pats| == 0 then false
    else if eng.fullMatch(pats[0], path) then true
    else
      var rest := Matches(eng, pats[1..], path);
      assert forall i :: 0 <= i < |pats| - 1 ==> pats[1..][i] == pats[i + 1];
      rest
  }

  /**
   * Matching depends only on which patterns are present, not on their order
   * or repetition: the compiled array is built from an unordered set.
   */
  lemma MatchesBySet(eng: Engine, a: seq<string>, b: seq<string>, path: string)
    requires forall p :: p in a <==> p in b
    ensures Matches(eng, a, path) <==> Matches(eng, b, path)
  {
    if Matches(eng, a, path) {
      var i :| 0 <= i < |a| && eng.fullMatch(a[i], path);
      assert a[i] in b;
      var j :| 0 <= j < |b| && b[j] == a[i];
    }
    if Matches(eng, b, path) {
      var i :| 0 <= i < |b| && eng.fullMatch(b[i], path);
      assert b[i] in a;
      var j :| 0 <= j < |a| && a[j] == b[i];
    }
  }

  /**
   * Scanning once with the whole array selects exactly what scanning once
   * per pattern selects: a path is selected by `pats` iff it is selected by
   * the one-pattern array of some member.
   */
  lemma MatchesOneOf(eng: Engine, pats: seq<string>, path: string)
    ensures Matches(eng, pats, path) <==> exists i :: 0 <= i < |pats| && Matches(eng, [pats[i]], path)
  {
  }

  /** A path ends in the separator, as archive directory markers do. */
  predicate EndsWithSlash(name: string)
  {
    |name| > 0 && name[|name| - 1] == '/'
  }

  /** A name is a directory marker exactly when it is some path followed by '/'. */
  lemma DirectoryMarker(name: string)
    ensures EndsWithSlash(name) <==> exists dir :: name == dir + "/"
  {
    if EndsWithSlash(name) {
      assert name == name[..|name| - 1] + "/";
    }
  }

  /**
   * The names of `names` that satisfy `keep`, in their original order
   * (`KeepMembers` states which names those are).
   */
  function Keep(names: seq<string>, keep: string -> bool): (r: seq<string>)
    ensures |r| <= |names|
  {
    if names == [] then []
    else
      var init := names[..|names| - 1];
      var last := names[|names| - 1];
      assert names == init + [last];
      Keep(init, keep) + (if keep(last) then [last] else [])
  }

  /** A name survives the filter exactly when it is listed and kept. */
  lemma {:induction false} KeepMembers(names: seq<string>, keep: string -> bool)
    ensures forall x :: x in Keep(names, keep) <==> x in names && keep(x)
    decreases |names|
  {
    if names != [] {
      var init := names[..|names| - 1];
      var last := names[|names| - 1];
      assert names == init + [last];
      KeepMembers(init, keep);
    }
  }

  /** Filtering one more name extends the result by that name exactly when it is kept. */
  lemma KeepSnoc(names: seq<string>, i: nat, keep: string -> bool)
    requires i < |names|
    ensures Keep(names[..i + 1], keep) == Keep(names[..i], keep) + (if keep(names[i]) then [names[i]] else [])
  {
    assert names[..i + 1][..i] == names[..i];
  }
}
