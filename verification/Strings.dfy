/** Names compared the way `std::string` compares them, and the least name of a finite set. */
module Strings {

  /** `a < b` of two strings: lexicographic, a proper prefix coming first. */
  predicate Less(a: string, b: string) {
    if b == [] then false
    else if a == [] then true
    else if a[0] != b[0] then a[0] < b[0]
    else Less(a[1..], b[1..])
  }

  lemma {:induction false} LessTrichotomy(a: string, b: string)
    ensures Less(a, b) || a == b || Less(b, a)
    ensures !(Less(a, b) && Less(b, a))
    ensures Less(a, b) ==> a != b
  {
    if a != [] && b != [] && a[0] == b[0] {
      LessTrichotomy(a[1..], b[1..]);
      assert a == [a[0]] + a[1..] && b == [b[0]] + b[1..];
    }
  }

  lemma {:induction false} LessTransitive(a: string, b: string, c: string)
    requires Less(a, b) && Less(b, c)
    ensures Less(a, c)
  {
    if a != [] && a[0] == b[0] == c[0] {
      LessTransitive(a[1..], b[1..], c[1..]);
    }
  }

  /** Where the two strings first differ decides, or their lengths when they do not. */
  ghost predicate DiffersAt(a: string, b: string, k: nat) {
    k < |a| && k < |b| && a[..k] == b[..k] && a[k] < b[k]
  }

  lemma {:induction false} LessIff(a: string, b: string)
    ensures Less(a, b) <==> (|a| < |b| && a == b[..|a|]) || exists k: nat :: DiffersAt(a, b, k)
  {
    if a != [] && b != [] {
      if a[0] == b[0] {
        LessIff(a[1..], b[1..]);
        forall k: nat | k < |a[1..]| && k < |b[1..]|
          ensures DiffersAt(a[1..], b[1..], k) <==> DiffersAt(a, b, k + 1)
        {
          assert a[..k + 1] == [a[0]] + a[1..][..k] && b[..k + 1] == [b[0]] + b[1..][..k];
        }
        if k: nat :| DiffersAt(a, b, k) {
          assert k > 0 && DiffersAt(a[1..], b[1..], k - 1);
        }
        if |a| <= |b| {
          assert a == [a[0]] + a[1..] && b[..|a|] == [b[0]] + b[1..][..|a| - 1];
        }
      } else {
        assert a[0] < b[0] ==> DiffersAt(a, b, 0);
        forall k: nat | 0 < k <= |a| && k <= |b|
          ensures a[..k] != b[..k]
        {
          assert a[..k][0] == a[0] && b[..k][0] == b[0];
        }
        if |a| < |b| {
          assert b[..|a|][0] == b[0];
        }
      }
    }
  }

  predicate StartsWith(s: string, prefix: string) {
    prefix <= s
  }

  ghost predicate IsLeast(names: set<string>, least: string) {
    least in names && forall name | name in names :: !Less(name, least)
  }

  lemma {:induction false} LeastExists(names: set<string>)
    requires names != {}
    ensures exists least :: IsLeast(names, least)
  {
    var name :| name in names;
    var rest := names - {name};
    if rest == {} {
      LessTrichotomy(name, name);
      assert forall other | other in names :: other in rest || other == name;
      assert IsLeast(names, name);
    } else {
      LeastExists(rest);
      var least :| IsLeast(rest, least);
      LessTrichotomy(name, least);
      if Less(name, least) {
        forall other | other in names
          ensures !Less(other, name)
        {
          LessTrichotomy(other, name);
          if other != name && Less(other, name) {
            LessTransitive(other, name, least);
          }
        }
        assert IsLeast(names, name);
      } else {
        assert IsLeast(names, least);
      }
    }
  }

  ghost predicate Ascending(names: seq<string>) {
    forall i, j | 0 <= i < j < |names| :: Less(names[i], names[j])
  }

  /** The names in ascending order. */
  method Sorted(names: set<string>) returns (sorted: seq<string>)
    ensures forall name :: name in sorted <==> name in names
    ensures Ascending(sorted)
  {
    sorted := [];
    var remaining := names;
    while remaining != {}
      invariant remaining <= names && forall name :: name in sorted <==> name in names - remaining
      invariant Ascending(sorted)
      invariant forall i, name | 0 <= i < |sorted| && name in remaining :: Less(sorted[i], name)
    {
      LeastExists(remaining);
      var least :| least in remaining && forall name | name in remaining :: !Less(name, least);
      forall name | name in remaining && name != least
        ensures Less(least, name)
      {
        LessTrichotomy(least, name);
      }
      remaining := remaining - {least};
      sorted := sorted + [least];
    }
  }
}
