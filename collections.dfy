/** Duplicate removal over sequences, shared by the link union of the back end and the
    `Set` of client ids on the dashboard. */
module Collections {

  /** No element occurs twice. */
  predicate NoDuplicates<T(==,!new)>(s: seq<T>) {
    forall i, j :: 0 <= i < j < |s| ==> s[i] != s[j]
  }

  /** The elements of `s`, each once, in order of first occurrence (the iteration order
      of a JavaScript `Set` built from `s`). */
  function Distinct<T(==,!new)>(s: seq<T>): (r: seq<T>)
    ensures forall x :: x in r <==> x in s
    ensures NoDuplicates(r)
    ensures |r| <= |s|
  {
    if s == [] then []
    else
      var d := Distinct(s[..|s| - 1]);
      var last := s[|s| - 1];
      assert s == s[..|s| - 1] + [last];
      if last in d then d else d + [last]
  }

  /** Removing duplicates from a sequence that has none changes nothing. */
  lemma {:induction false} DistinctOfDistinct<T(!new)>(s: seq<T>)
    requires NoDuplicates(s)
    ensures Distinct(s) == s
  {
    if s != [] {
      var init := s[..|s| - 1];
      assert NoDuplicates(init);
      DistinctOfDistinct(init);
      assert s[|s| - 1] !in init;
      assert init + [s[|s| - 1]] == s;
    }
  }

  /** Appending elements that already occur to a sequence without duplicates, then
      removing duplicates, gives back that sequence. */
  lemma {:induction false} DistinctAbsorbs<T(!new)>(s: seq<T>, extra: seq<T>)
    requires NoDuplicates(s)
    requires forall x :: x in extra ==> x in s
    ensures Distinct(s + extra) == s
  {
    if extra == [] {
      assert s + extra == s;
      DistinctOfDistinct(s);
    } else {
      var init := extra[..|extra| - 1];
      var whole := s + extra;
      assert whole[..|whole| - 1] == s + init;
      assert whole[|whole| - 1] == extra[|extra| - 1];
      DistinctAbsorbs(s, init);
    }
  }
}
