/** Types and small facts shared by every component. */
module Prelude {
  datatype Option<+T> = None | Some(value: T)
  datatype Result<+T, +E> = Ok(value: T) | Err(error: E)

  /** The elements of a sequence. */
  ghost function Elems<T>(s: seq<T>): set<T> {
    set x | x in s
  }

  lemma ElemsAppend<T>(s: seq<T>, x: T)
    ensures Elems(s + [x]) == Elems(s) + {x}
  {
  }

  ghost predicate Distinct<T>(s: seq<T>) {
    forall i, j | 0 <= i < j < |s| :: s[i] != s[j]
  }

  /** `part` is what `keep` leaves of `whole`, in order: `at` gives the places it came from. */
  ghost predicate SiftsAt<T>(whole: seq<T>, part: seq<T>, keep: T -> bool, at: seq<nat>) {
    && |at| == |part|
    && (forall i | 0 <= i < |at| :: at[i] < |whole| && part[i] == whole[at[i]] && keep(part[i]))
    && (forall i, j | 0 <= i < j < |at| :: at[i] < at[j])
    && (forall k | 0 <= k < |whole| && keep(whole[k]) :: k in at)
  }

  ghost predicate Sifts<T>(whole: seq<T>, part: seq<T>, keep: T -> bool) {
    exists at :: SiftsAt(whole, part, keep, at)
  }

  /** Lists with a common beginning agree on their first element. */
  lemma PrefixHead<T>(a: seq<T>, b: seq<T>, k: nat)
    requires a != [] && b != [] && k <= |a| && k <= |b| && a[..k] == b[..k]
    ensures k == 0 || a[0] == b[0]
  {
    if k > 0 {
      assert a[..k][0] == a[0] && b[..k][0] == b[0];
    }
  }

  lemma SiftsNothing<T>(keep: T -> bool)
    ensures Sifts([], [], keep)
  {
    assert SiftsAt([], [], keep, []);
  }

  /** One more element at the end, kept or not. */
  lemma SiftsOne<T>(whole: seq<T>, part: seq<T>, keep: T -> bool, x: T, whole': seq<T>, part': seq<T>)
    requires Sifts(whole, part, keep)
    requires whole' == whole + [x] && part' == if keep(x) then part + [x] else part
    ensures Sifts(whole', part', keep)
  {
    var at :| SiftsAt(whole, part, keep, at);
    if keep(x) {
      KeepLast(whole, part, keep, x, at);
    } else {
      DropLast(whole, part, keep, x, at);
    }
  }

  lemma KeepLast<T>(whole: seq<T>, part: seq<T>, keep: T -> bool, x: T, at: seq<nat>)
    requires SiftsAt(whole, part, keep, at) && keep(x)
    ensures SiftsAt(whole + [x], part + [x], keep, at + [|whole|])
  {
    var all, more := whole + [x], at + [|whole|];
    forall k | 0 <= k < |all| && keep(all[k]) ensures k in more {
      if k < |whole| {
        assert all[k] == whole[k] && k in at;
      } else {
        assert more[|at|] == k;
      }
    }
  }

  lemma DropLast<T>(whole: seq<T>, part: seq<T>, keep: T -> bool, x: T, at: seq<nat>)
    requires SiftsAt(whole, part, keep, at) && !keep(x)
    ensures SiftsAt(whole + [x], part, keep, at)
  {
    var all := whole + [x];
    forall k | 0 <= k < |all| && keep(all[k]) ensures k in at {
      assert all[k] == whole[k];
    }
  }
}
