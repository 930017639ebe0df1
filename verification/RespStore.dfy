/**
 The reply objects a reader builds, as a store indexed by allocation order: an
 address is an index, NULL is -1, and an array object holds the addresses of its
 elements.  `Shows` says that the object at an address is exactly a given reply.
 */
module RespStore {
  import opened RespGrammar

  const NULL: int := -1

  datatype Obj =
    | Text(kind: Kind, text: string)
    | Count(n: int)
    | Nothing
    | Array(elements: int, slots: seq<int>)

  /** The object at a, with everything below it, lies in [lo, hi) and is the reply r. */
  ghost predicate Shows(objs: seq<Obj>, a: int, r: Reply, lo: int, hi: int)
    decreases r
  {
    && 0 <= lo <= a < hi <= |objs|
    && match r
       case Str(t) => objs[a] == Text(KString, t)
       case Status(t) => objs[a] == Text(KStatus, t)
       case Error(t) => objs[a] == Text(KError, t)
       case Integer(n) => objs[a] == Count(n)
       case Nil => objs[a] == Nothing
       case Arr(n, items) =>
         && objs[a].Array? && objs[a].elements == n && |objs[a].slots| == |items|
         && forall i | 0 <= i < |items| :: Shows(objs, objs[a].slots[i], items[i], a + 1, hi)
  }

  lemma {:induction false} ShowsFrame(objs: seq<Obj>, objs': seq<Obj>, a: int, r: Reply, lo: int, hi: int, lo': int, hi': int)
    requires Shows(objs, a, r, lo, hi)
    requires 0 <= lo' <= lo && hi <= hi' <= |objs'|
    requires forall i | lo <= i < hi :: objs'[i] == objs[i]
    ensures Shows(objs', a, r, lo', hi')
    decreases r
  {
    if r.Arr? {
      forall i | 0 <= i < |r.items|
        ensures Shows(objs', objs'[a].slots[i], r.items[i], a + 1, hi')
      {
        ShowsFrame(objs, objs', objs[a].slots[i], r.items[i], a + 1, hi, a + 1, hi');
      }
    }
  }

  /** An object shows at most one reply. */
  lemma {:induction false} ShowsOne(objs: seq<Obj>, a: int, r: Reply, q: Reply, lo: int, hi: int, lo': int, hi': int)
    requires Shows(objs, a, r, lo, hi) && Shows(objs, a, q, lo', hi')
    ensures r == q
    decreases r
  {
    match r
    case Arr(n, items) =>
      forall i | 0 <= i < |items| ensures items[i] == q.items[i] {
        ShowsOne(objs, objs[a].slots[i], items[i], q.items[i], a + 1, hi, a + 1, hi');
      }
    case _ =>
  }
}
