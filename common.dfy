/** Value types shared by the learner-progress model, and the "list used as a set"
    helpers that the request handlers rely on (append if absent, delete one, de-duplicate). */
module Common {

  datatype Option<T> = None | Some(value: T) {
    /** The value, or `default` when absent (Python's `dict.get(key, default)`). */
    function GetOr(default: T): T {
      if Some? then value else default
    }
  }

  datatype Result<T, E> = Success(value: T) | Failure(error: E)

  /** The typed failures the modelled handlers raise as HTTP errors. */
  datatype ApiError =
    | AssessmentNotFound      // 404 "Assessment not found"
    | CertificationNotFound   // 404 "Certification not found"
    | ReadinessTooLow         // 400 "Need 80%+ readiness to earn certificate"

  /** No element occurs twice. */
  ghost predicate NoDuplicates<T>(s: seq<T>) {
    forall i, j :: 0 <= i < j < |s| ==> s[i] != s[j]
  }

  /** `if x not in s: s.append(x)` -- the guarded `$push` and guarded `insert_one`. */
  function AppendIfAbsent<T(==,!new)>(s: seq<T>, x: T): (r: seq<T>)
    ensures x in r
    ensures forall y :: y in r <==> y in s || y == x
    ensures x in s ==> r == s
    ensures x !in s ==> |r| == |s| + 1 && r[..|s|] == s
    ensures NoDuplicates(s) ==> NoDuplicates(r)
  {
    if x in s then s else s + [x]
  }

  /** Appending the same element twice is the same as appending it once. */
  lemma AppendIfAbsentIdempotent<T(!new)>(s: seq<T>, x: T)
    ensures AppendIfAbsent(AppendIfAbsent(s, x), x) == AppendIfAbsent(s, x)
  {
  }

  /** In a list without duplicates, a present element occurs exactly once. */
  lemma {:induction false} OccursOnce<T>(s: seq<T>, x: T)
    requires NoDuplicates(s)
    ensures multiset(s)[x] == if x in s then 1 else 0
  {
    if s != [] {
      assert s == [s[0]] + s[1..];
      OccursOnce(s[1..], x);
      if s[0] == x {
        assert x !in s[1..] by {
          forall k | 0 <= k < |s[1..]| ensures s[1..][k] != x {
            assert s[1..][k] == s[k + 1];
          }
        }
      }
    }
  }

  /** `delete_one`: removes the first occurrence of `x`, if any. */
  function RemoveFirst<T(==)>(s: seq<T>, x: T): (r: seq<T>)
    ensures x in s ==> multiset(r) == multiset(s) - multiset{x}
    ensures x !in s ==> r == s
  {
    if s == [] then []
    else if s[0] == x then
      assert s == [s[0]] + s[1..];
      s[1..]
    else
      assert s == [s[0]] + s[1..];
      [s[0]] + RemoveFirst(s[1..], x)
  }

  /** Deleting from a list without duplicates leaves no occurrence and no duplicate. */
  lemma {:induction false} RemoveFirstFromDistinct<T>(s: seq<T>, x: T)
    requires NoDuplicates(s)
    ensures NoDuplicates(RemoveFirst(s, x)) && x !in RemoveFirst(s, x)
  {
    if s != [] {
      assert s == [s[0]] + s[1..];
      var tail := s[1..];
      assert NoDuplicates(tail) by {
        forall i, j | 0 <= i < j < |tail| ensures tail[i] != tail[j] {
          assert tail[i] == s[i + 1] && tail[j] == s[j + 1];
        }
      }
      assert s[0] !in tail by {
        forall k | 0 <= k < |tail| ensures tail[k] != s[0] {
          assert tail[k] == s[k + 1];
        }
      }
      if s[0] != x {
        RemoveFirstFromDistinct(tail, x);
        var rest := RemoveFirst(tail, x);
        assert s[0] !in rest by {
          assert multiset(tail)[s[0]] == 0;
          assert multiset(rest)[s[0]] == 0;
        }
        assert RemoveFirst(s, x) == [s[0]] + rest;
      }
    }
  }

  /** `list(set(s))`: the distinct elements of `s`, each once, in order of first occurrence. */
  function Dedup<T(==,!new)>(s: seq<T>): (r: seq<T>)
    ensures NoDuplicates(r)
    ensures forall y :: y in r <==> y in s
    ensures |r| <= |s|
  {
    if s == [] then [] else AppendIfAbsent(Dedup(s[..|s| - 1]), s[|s| - 1])
  }
}
