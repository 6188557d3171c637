/** Small vocabulary shared by every module of the model. */
module Common {
  datatype Option<+T> = None | Some(value: T)

  /** time.Duration and time.Time are int64 nanosecond counts. */
  const MAX_INT64: int := 0x7FFF_FFFF_FFFF_FFFF
  const SECOND: int := 1_000_000_000

  function Max(a: int, b: int): int {
    if a < b then b else a
  }

  ghost predicate Distinct<T>(s: seq<T>) {
    forall i, j :: 0 <= i < j < |s| ==> s[i] != s[j]
  }

  function Min(a: int, b: int): int {
    if a < b then a else b
  }

  /** picked are the elements of s that satisfy keep, in their order: at says where each of them stood. */
  ghost predicate Selects<T>(picked: seq<T>, s: seq<T>, keep: T -> bool, at: seq<nat>) {
    && |at| == |picked|
    && (forall i :: 0 <= i < |at| ==> at[i] < |s| && picked[i] == s[at[i]])
    && (forall i, j :: 0 <= i < j < |at| ==> at[i] < at[j])
    && (forall j :: 0 <= j < |s| ==> (keep(s[j]) <==> j in at))
  }

  lemma SelectsMembers<T>(picked: seq<T>, s: seq<T>, keep: T -> bool, at: seq<nat>, x: T)
    requires Selects(picked, s, keep, at)
    ensures x in picked <==> x in s && keep(x)
  {
    if x in s && keep(x) {
      var j :| 0 <= j < |s| && s[j] == x;
      assert j in at;
      var i :| 0 <= i < |at| && at[i] == j;
      assert picked[i] == x;
    }
    if x in picked {
      var i :| 0 <= i < |picked| && picked[i] == x;
      assert at[i] in at && keep(s[at[i]]);
    }
  }

  lemma SelectsNext<T>(picked: seq<T>, s: seq<T>, keep: T -> bool, at: seq<nat>, x: T)
    requires Selects(picked, s, keep, at)
    ensures Selects(picked + (if keep(x) then [x] else []), s + [x], keep, at + (if keep(x) then [|s|] else []))
  {
    var longer := at + (if keep(x) then [|s|] else []);
    forall j | 0 <= j < |s| + 1 ensures keep((s + [x])[j]) <==> j in longer {
      if j == |s| && keep(x) {
        assert longer[|at|] == j;
      } else if j < |s| {
        assert j in longer <==> j in at;
      }
    }
  }
}
