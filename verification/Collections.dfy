/** Optional values, and small facts about finite sets and maps. */
module Collections {

  datatype Option<T> = None | Some(value: T)

  function Get<K>(m: map<K, nat>, k: K): nat { if k in m then m[k] else 0 }

  lemma SubsetCard<T>(a: set<T>, b: set<T>)
    requires a <= b
    ensures |a| <= |b|
  {
    if a != {} {
      var x :| x in a;
      SubsetCard(a - {x}, b - {x});
    }
  }

  lemma CardWithout<T>(a: set<T>, t: T)
    ensures |a - {t}| == |a| - if t in a then 1 else 0
  {
    if t !in a { assert a - {t} == a; }
  }

  /** Two sets that differ in one element at most. */
  lemma CardBut<T>(a: set<T>, b: set<T>, t: T)
    requires a - {t} == b - {t}
    ensures |b| == |a| - (if t in a then 1 else 0) + (if t in b then 1 else 0)
  {
    CardWithout(a, t);
    CardWithout(b, t);
  }
}
