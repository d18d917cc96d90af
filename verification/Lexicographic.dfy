/** Lexicographic order of sequences, as std::vector and std::string compare. */
module Lexicographic {

  /** `lt` is a strict total order. */
  ghost predicate StrictTotal<T(!new)>(lt: (T, T) -> bool) {
    && (forall x :: !lt(x, x))
    && (forall x, y :: lt(x, y) || lt(y, x) || x == y)
    && (forall x, y, z :: lt(x, y) && lt(y, z) ==> lt(x, z))
  }

  predicate NatLess(x: nat, y: nat) { x < y }

  predicate CharLess(x: char, y: char) { x < y }

  predicate Less<T(==)>(lt: (T, T) -> bool, s: seq<T>, t: seq<T>) {
    t != [] &&
    (s == [] || lt(s[0], t[0]) || (s[0] == t[0] && Less(lt, s[1..], t[1..])))
  }

  predicate PathLess(s: seq<nat>, t: seq<nat>) { Less(NatLess, s, t) }

  predicate StringLess(s: string, t: string) { Less(CharLess, s, t) }

  lemma {:induction false} LessIrreflexive<T(!new)>(lt: (T, T) -> bool, s: seq<T>)
    requires StrictTotal(lt)
    ensures !Less(lt, s, s)
  {
    if s != [] {
      LessIrreflexive(lt, s[1..]);
    }
  }

  lemma {:induction false} LessTransitive<T(!new)>(lt: (T, T) -> bool, s: seq<T>, t: seq<T>, u: seq<T>)
    requires StrictTotal(lt)
    requires Less(lt, s, t) && Less(lt, t, u)
    ensures Less(lt, s, u)
  {
    if s != [] && s[0] == t[0] && t[0] == u[0] {
      LessTransitive(lt, s[1..], t[1..], u[1..]);
    }
  }

  lemma {:induction false} LessTotal<T(!new)>(lt: (T, T) -> bool, s: seq<T>, t: seq<T>)
    requires StrictTotal(lt)
    ensures Less(lt, s, t) || Less(lt, t, s) || s == t
  {
    if s != [] && t != [] && s[0] == t[0] {
      LessTotal(lt, s[1..], t[1..]);
      assert s == [s[0]] + s[1..] && t == [t[0]] + t[1..];
    }
  }

  lemma StringLessTotal()
    ensures StrictTotal(StringLess)
  {
    forall s: string ensures !StringLess(s, s) {
      LessIrreflexive(CharLess, s);
    }
    forall s: string, t: string ensures StringLess(s, t) || StringLess(t, s) || s == t {
      LessTotal(CharLess, s, t);
    }
    forall s: string, t: string, u: string | StringLess(s, t) && StringLess(t, u) ensures StringLess(s, u) {
      LessTransitive(CharLess, s, t, u);
    }
  }

  /** Comparing two sequences of one length by their prefixes first and their last elements second. */
  lemma {:induction false} LessSnoc<T(!new)>(lt: (T, T) -> bool, s: seq<T>, a: T, t: seq<T>, b: T)
    requires StrictTotal(lt)
    requires |s| == |t|
    ensures Less(lt, s + [a], t + [b]) <==> Less(lt, s, t) || (s == t && lt(a, b))
  {
    if s == [] {
      assert s + [a] == [a] && t + [b] == [b];
      assert [a][1..] == [] && [b][1..] == [];
    } else {
      assert (s + [a])[1..] == s[1..] + [a] && (t + [b])[1..] == t[1..] + [b];
      LessSnoc(lt, s[1..], a, t[1..], b);
      if s[0] == t[0] && s[1..] == t[1..] {
        assert s == [s[0]] + s[1..] && t == [t[0]] + t[1..];
      }
    }
  }

  /** What the recursion computes: a proper prefix, or a smaller element at the first difference. */
  ghost predicate FirstDifference<T>(lt: (T, T) -> bool, s: seq<T>, t: seq<T>, k: int) {
    0 <= k < |s| && k < |t| && s[..k] == t[..k] && lt(s[k], t[k])
  }

  lemma {:induction false} LessMeaning<T(!new)>(lt: (T, T) -> bool, s: seq<T>, t: seq<T>)
    requires StrictTotal(lt)
    ensures Less(lt, s, t) <==> (|s| < |t| && s == t[..|s|]) || exists k :: FirstDifference(lt, s, t, k)
  {
    if s != [] && t != [] {
      if s[0] == t[0] {
        LessMeaning(lt, s[1..], t[1..]);
        assert s == [s[0]] + s[1..] && t == [t[0]] + t[1..];
        assert |s| < |t| ==> t[..|s|] == [t[0]] + t[1..][..|s| - 1];
        assert |s| < |t| ==> t[1..][..|s| - 1] == t[..|s|][1..];
        LaterDifference(lt, s, t);
      } else {
        assert |s| < |t| ==> t[..|s|][0] == t[0];
        assert lt(s[0], t[0]) ==> FirstDifference(lt, s, t, 0);
        forall k | FirstDifference(lt, s, t, k) ensures k == 0 {
          SameBefore(lt, s, t, k);
        }
      }
    }
  }

  lemma SameBefore<T(!new)>(lt: (T, T) -> bool, s: seq<T>, t: seq<T>, k: nat)
    requires FirstDifference(lt, s, t, k)
    ensures k > 0 ==> s[0] == t[0]
  {
    if k > 0 {
      assert s[..k][0] == s[0] && t[..k][0] == t[0];
    }
  }

  lemma LaterDifference<T(!new)>(lt: (T, T) -> bool, s: seq<T>, t: seq<T>)
    requires StrictTotal(lt) && s != [] && t != [] && s[0] == t[0]
    ensures (exists k :: FirstDifference(lt, s, t, k)) <==> exists k :: FirstDifference(lt, s[1..], t[1..], k)
  {
    forall k | FirstDifference(lt, s[1..], t[1..], k) ensures FirstDifference(lt, s, t, k + 1) {
      assert s[..k + 1] == [s[0]] + s[1..][..k] && t[..k + 1] == [t[0]] + t[1..][..k];
    }
    forall k | FirstDifference(lt, s, t, k) ensures k > 0 && FirstDifference(lt, s[1..], t[1..], k - 1) {
      assert s[1..][..k - 1] == s[..k][1..] && t[1..][..k - 1] == t[..k][1..];
    }
  }

  /** Strings compare by their first differing character; a proper prefix comes first. */
  lemma StringLessMeaning(s: string, t: string)
    ensures StringLess(s, t) <==>
              (|s| < |t| && s == t[..|s|]) ||
              exists k :: 0 <= k < |s| && k < |t| && s[..k] == t[..k] && s[k] < t[k]
  {
    LessMeaning(CharLess, s, t);
    forall k ensures FirstDifference(CharLess, s, t, k) <==>
                     0 <= k < |s| && k < |t| && s[..k] == t[..k] && s[k] < t[k] {
    }
  }
}
