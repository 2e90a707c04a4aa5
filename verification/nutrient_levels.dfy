/**
 An insertion-ordered mapping from nutrient name to quantity. It stands for
 the two ordered mappings the recommendation engine handles: a crop's row of
 required levels (a pandas Series indexed by nutrient column) and the
 recommendation it builds (a Python dict, which keeps insertion order and
 overwrites in place when a key is assigned again).
 */
module NutrientLevels {

  datatype Option<+T> = None | Some(value: T)

  /** One nutrient and its quantity (kg per acre). */
  datatype Level = Level(nutrient: string, amount: real)

  type Levels = seq<Level>

  /** The nutrient names of `d`, in order. */
  function Keys(d: Levels): seq<string>
  {
    seq(|d|, i requires 0 <= i < |d| => d[i].nutrient)
  }

  predicate Distinct(s: seq<string>)
  {
    forall i, j | 0 <= i < j < |s| :: s[i] != s[j]
  }

  /** The position of the first occurrence of `k` in `s`. */
  function IndexOf(s: seq<string>, k: string): (i: nat)
    requires k in s
    ensures i < |s| && s[i] == k
    ensures forall j | 0 <= j < i :: s[j] != k
  {
    if s[0] == k then 0 else 1 + IndexOf(s[1..], k)
  }

  lemma IndexOfIsFirst(s: seq<string>, k: string, i: nat)
    requires i < |s| && s[i] == k
    requires forall j | 0 <= j < i :: s[j] != k
    ensures IndexOf(s, k) == i
  {
  }

  /** Dictionary lookup: the quantity stored under `k`, if any. */
  function Get(d: Levels, k: string): Option<real>
  {
    var ks := Keys(d);
    if k in ks then Some(d[IndexOf(ks, k)].amount) else None
  }

  /**
   Dictionary item assignment `d[k] = v`: an existing key keeps its position
   and takes the new value, a new key is appended at the end.
   */
  function Assign(d: Levels, k: string, v: real): (r: Levels)
    ensures Keys(r) == if k in Keys(d) then Keys(d) else Keys(d) + [k]
    ensures k in Keys(d) ==> r[IndexOf(Keys(d), k)] == Level(k, v)
    ensures forall i | 0 <= i < |d| && d[i].nutrient != k :: r[i] == d[i]
    ensures forall i | 0 <= i < |r| :: r[i] == Level(k, v) || (i < |d| && r[i] == d[i])
    ensures k !in Keys(d) ==> r == d + [Level(k, v)]
    ensures Distinct(Keys(d)) ==> Distinct(Keys(r))
  {
    var ks := Keys(d);
    if k in ks then
      var r := d[IndexOf(ks, k) := Level(k, v)];
      assert Keys(r) == ks;
      r
    else
      var r := d + [Level(k, v)];
      assert Keys(r) == ks + [k];
      r
  }

  /**
   Reading after writing: the assigned key reads back the new value, every
   other key reads what it read before.
   */
  lemma AssignGet(d: Levels, k: string, v: real)
    ensures Get(Assign(d, k, v), k) == Some(v)
    ensures forall j | j != k :: Get(Assign(d, k, v), j) == Get(d, j)
  {
    var ks := Keys(d);
    var r := Assign(d, k, v);
    if k !in ks {
      forall j | j != k && j in ks
        ensures IndexOf(Keys(r), j) == IndexOf(ks, j)
      {
        IndexOfIsFirst(Keys(r), j, IndexOf(ks, j));
      }
    }
  }

  /** Dropping the last entry keeps names distinct, and the dropped name occurs nowhere else. */
  lemma DistinctInit(d: Levels)
    requires Distinct(Keys(d)) && d != []
    ensures Distinct(Keys(d[..|d| - 1]))
    ensures d[|d| - 1].nutrient !in Keys(d[..|d| - 1])
  {
    var init := d[..|d| - 1];
    assert Keys(d)[|d| - 1] == d[|d| - 1].nutrient;
    forall j | 0 <= j < |init| ensures Keys(init)[j] == Keys(d)[j] != d[|d| - 1].nutrient {
    }
  }
}
