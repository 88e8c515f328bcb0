/** The per-operation sample dictionary of perf/fit.py, `{size: time}`.
    A Python dict remembers insertion order, and `zip(*measurement.items())`
    hands the sizes to the interpolator in that order, so the model keeps the
    entries as a sequence: assigning to an existing size overwrites it in
    place, a new size goes to the end. */
module SampleSets {
  import opened Wrappers

  datatype Sample = Sample(size: int, time: real)

  /** Entries in insertion order. */
  type SampleSet = seq<Sample>

  /** No size is stored twice (dict keys). */
  predicate UniqueSizes(s: SampleSet)
  {
    forall i, j :: 0 <= i < j < |s| ==> s[i].size != s[j].size
  }

  /** The keys in insertion order: the first half of `zip(*items())`. */
  function Sizes(s: SampleSet): (xs: seq<int>)
  {
    seq(|s|, i requires 0 <= i < |s| => s[i].size)
  }

  /** The values in insertion order: the second half of `zip(*items())`. */
  function Times(s: SampleSet): (ys: seq<real>)
  {
    seq(|s|, i requires 0 <= i < |s| => s[i].time)
  }

  /** The position of `size` among the keys, if it is one. */
  function Find(s: SampleSet, size: int): (r: Option<nat>)
    ensures r.Some? ==> r.value < |s| && s[r.value].size == size
    ensures r.Some? ==> forall j :: 0 <= j < r.value ==> s[j].size != size
    ensures r.None? ==> forall j :: 0 <= j < |s| ==> s[j].size != size
  {
    if |s| == 0 then None
    else if s[0].size == size then Some(0)
    else match Find(s[1..], size)
      case None => None
      case Some(i) => Some(i + 1)
  }

  /** Find's result is the first position holding the size, and no other. */
  lemma FindFirst(s: SampleSet, size: int, i: nat)
    requires i < |s| && s[i].size == size
    requires forall j :: 0 <= j < i ==> s[j].size != size
    ensures Find(s, size) == Some(i)
  {
  }

  /** Overwriting the entry at position i changes the value found for its
      size and nothing that any other size finds. */
  lemma {:induction false} OverwriteAt(s: SampleSet, size: int, time: real, i: nat)
    requires Find(s, size) == Some(i)
    ensures Find(s[i := Sample(size, time)], size) == Some(i)
    ensures forall k :: k != size ==> Find(s[i := Sample(size, time)], k) == Find(s, k)
  {
    var r := s[i := Sample(size, time)];
    FindFirst(r, size, i);
    forall k | k != size ensures Find(r, k) == Find(s, k) {
      match Find(s, k)
      case Some(j) => FindFirst(r, k, j);
      case None =>
    }
  }

  /** Appending an entry for a new size makes it findable at the end and
      changes nothing that any other size finds. */
  lemma {:induction false} AppendNew(s: SampleSet, size: int, time: real)
    requires Find(s, size).None?
    ensures Find(s + [Sample(size, time)], size) == Some(|s|)
    ensures forall k :: k != size ==> Find(s + [Sample(size, time)], k) == Find(s, k)
  {
    var r := s + [Sample(size, time)];
    FindFirst(r, size, |s|);
    forall k | k != size ensures Find(r, k) == Find(s, k) {
      match Find(s, k)
      case Some(j) => FindFirst(r, k, j);
      case None =>
    }
  }

  /** `d.get(size)`. */
  function Get(s: SampleSet, size: int): (r: Option<real>)
    ensures r.None? <==> size !in Sizes(s)
    ensures r.Some? ==> exists i :: 0 <= i < |s| && s[i] == Sample(size, r.value)
  {
    match Find(s, size)
    case None => None
    case Some(i) =>
      assert Sizes(s)[i] == size;
      Some(s[i].time)
  }

  /** `d[size] = time`: overwrite in place, or append a new key. */
  function Put(s: SampleSet, size: int, time: real): (r: SampleSet)
    ensures Get(r, size) == Some(time)
    ensures forall k :: k != size ==> Get(r, k) == Get(s, k)
    ensures Sizes(r) == if size in Sizes(s) then Sizes(s) else Sizes(s) + [size]
    ensures UniqueSizes(s) ==> UniqueSizes(r)
  {
    match Find(s, size)
    case None =>
      AppendNew(s, size, time);
      s + [Sample(size, time)]
    case Some(i) =>
      OverwriteAt(s, size, time, i);
      assert Sizes(s)[i] == size;
      assert Sizes(s[i := Sample(size, time)]) == Sizes(s);
      s[i := Sample(size, time)]
  }
}
