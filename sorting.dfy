/**
 * The sort step of the listing: Python's stable `list.sort(key=..., reverse=...)`
 * on one of three keys.  With reverse=True Python sorts as if every comparison
 * were reversed and still keeps records with equal keys in their original
 * order, so both directions are a stable insertion sort under a strict order.
 */
module Sorting {
  import opened Schemas
  import Text

  /** The three sort keys the listing accepts. */
  datatype Campo = Nombre | ValorNumerico | FechaCreacion

  datatype Orden = Orden(campo: Campo, desc: bool)

  /** Strictly smaller key, ascending. */
  predicate KeyLt(c: Campo, a: Elemento, b: Elemento)
  {
    match c
    case Nombre => Text.StrLt(a.nombre, b.nombre)
    case ValorNumerico => a.valorNumerico < b.valorNumerico
    case FechaCreacion => a.fechaCreacion < b.fechaCreacion
  }

  predicate SameKey(c: Campo, a: Elemento, b: Elemento)
  {
    match c
    case Nombre => a.nombre == b.nombre
    case ValorNumerico => a.valorNumerico == b.valorNumerico
    case FechaCreacion => a.fechaCreacion == b.fechaCreacion
  }

  /** a must come strictly before b in the requested order. */
  predicate Before(o: Orden, a: Elemento, b: Elemento)
  {
    if o.desc then KeyLt(o.campo, b, a) else KeyLt(o.campo, a, b)
  }

  /** Before is a strict weak order whose ties are exactly equal keys. */
  lemma BeforeOrder(o: Orden, a: Elemento, b: Elemento, x: Elemento)
    ensures !Before(o, a, a)
    ensures Before(o, a, b) ==> !SameKey(o.campo, a, b) && !Before(o, b, a)
    ensures !Before(o, a, b) && !Before(o, b, a) ==> SameKey(o.campo, a, b)
    ensures Before(o, a, b) && Before(o, b, x) ==> Before(o, a, x)
    ensures SameKey(o.campo, a, b) && Before(o, b, x) ==> Before(o, a, x)
    ensures SameKey(o.campo, a, b) && Before(o, x, b) ==> Before(o, x, a)
  {
    if o.campo == Nombre {
      Text.StrLtIrreflexive(a.nombre);
      Text.StrLtTrichotomy(a.nombre, b.nombre);
      if Text.StrLt(a.nombre, b.nombre) && Text.StrLt(b.nombre, a.nombre) {
        Text.StrLtTransitive(a.nombre, b.nombre, a.nombre);
      }
      if Text.StrLt(a.nombre, b.nombre) && Text.StrLt(b.nombre, x.nombre) {
        Text.StrLtTransitive(a.nombre, b.nombre, x.nombre);
      }
      if Text.StrLt(x.nombre, b.nombre) && Text.StrLt(b.nombre, a.nombre) {
        Text.StrLtTransitive(x.nombre, b.nombre, a.nombre);
      }
      if Text.StrLt(b.nombre, a.nombre) && Text.StrLt(x.nombre, b.nombre) {
        Text.StrLtTransitive(x.nombre, b.nombre, a.nombre);
      }
      if Text.StrLt(x.nombre, b.nombre) && Text.StrLt(b.nombre, a.nombre) {
        Text.StrLtTransitive(x.nombre, b.nombre, a.nombre);
      }
      if Text.StrLt(b.nombre, x.nombre) && Text.StrLt(a.nombre, b.nombre) {
        Text.StrLtTransitive(a.nombre, b.nombre, x.nombre);
      }
    }
  }

  /** x before a, and a not after y: then x before y. */
  lemma BeforeThenNotAfter(o: Orden, x: Elemento, a: Elemento, y: Elemento)
    requires Before(o, x, a) && !Before(o, y, a)
    ensures Before(o, x, y)
  {
    BeforeOrder(o, a, y, x);
    BeforeOrder(o, x, a, y);
    if SameKey(o.campo, a, y) {
      BeforeOrder(o, y, a, x);
    }
  }

  ghost predicate Sorted(o: Orden, s: seq<Elemento>)
  {
    forall i, j | 0 <= i < j < |s| :: !Before(o, s[j], s[i])
  }

  /** The records of s whose key equals e's, in the order s has them. */
  function SameKeyAs(c: Campo, s: seq<Elemento>, e: Elemento): seq<Elemento>
  {
    if s == [] then []
    else (if SameKey(c, s[0], e) then [s[0]] else []) + SameKeyAs(c, s[1..], e)
  }

  lemma {:induction false} SameKeyAsAppend(c: Campo, a: seq<Elemento>, b: seq<Elemento>, e: Elemento)
    ensures SameKeyAs(c, a + b, e) == SameKeyAs(c, a, e) + SameKeyAs(c, b, e)
  {
    if a != [] {
      assert (a + b)[0] == a[0] && (a + b)[1..] == a[1..] + b;
      SameKeyAsAppend(c, a[1..], b, e);
    } else {
      assert a + b == b;
    }
  }

  lemma {:induction false} SameKeyAsNone(c: Campo, s: seq<Elemento>, e: Elemento)
    requires forall y | y in s :: !SameKey(c, y, e)
    ensures SameKeyAs(c, s, e) == []
  {
    if s != [] {
      assert s[0] in s;
      SameKeyAsNone(c, s[1..], e);
    }
  }

  /** Inserts x after every record that is not strictly after it. */
  function Insert(o: Orden, x: Elemento, s: seq<Elemento>): (r: seq<Elemento>)
    ensures multiset(r) == multiset(s) + multiset{x}
  {
    if s == [] then [x]
    else if Before(o, x, s[0]) then [x] + s
    else
      assert s == [s[0]] + s[1..];
      [s[0]] + Insert(o, x, s[1..])
  }

  /** A record that no element of a sorted list goes before can head that list. */
  lemma ConsSorted(o: Orden, h: Elemento, t: seq<Elemento>)
    requires Sorted(o, t)
    requires forall k | 0 <= k < |t| :: !Before(o, t[k], h)
    ensures Sorted(o, [h] + t)
  {
    var r := [h] + t;
    forall i, j | 0 <= i < j < |r| ensures !Before(o, r[j], r[i]) {
      if i == 0 { assert r[j] == t[j - 1]; } else { assert r[i] == t[i - 1] && r[j] == t[j - 1]; }
    }
  }

  lemma {:induction false} InsertSorted(o: Orden, x: Elemento, s: seq<Elemento>)
    requires Sorted(o, s)
    ensures Sorted(o, Insert(o, x, s))
  {
    if s == [] {
    } else if Before(o, x, s[0]) {
      forall k | 0 <= k < |s| ensures !Before(o, s[k], x) {
        if k > 0 { BeforeThenNotAfter(o, x, s[0], s[k]); }
        BeforeOrder(o, x, s[k], x);
      }
      ConsSorted(o, x, s);
    } else {
      InsertSorted(o, x, s[1..]);
      var t := Insert(o, x, s[1..]);
      forall k | 0 <= k < |t| ensures !Before(o, t[k], s[0]) {
        assert t[k] in multiset(t);
        if t[k] != x {
          assert t[k] in multiset(s[1..]);
          var m :| 0 <= m < |s[1..]| && s[1..][m] == t[k];
          assert s[m + 1] == t[k];
        }
      }
      ConsSorted(o, s[0], t);
    }
  }

  /** Insertion puts x after every record with the same key. */
  lemma {:induction false} InsertStable(o: Orden, x: Elemento, s: seq<Elemento>, e: Elemento)
    requires Sorted(o, s)
    ensures SameKeyAs(o.campo, Insert(o, x, s), e)
         == SameKeyAs(o.campo, s, e) + (if SameKey(o.campo, x, e) then [x] else [])
  {
    if s == [] {
    } else if Before(o, x, s[0]) {
      SameKeyAsAppend(o.campo, [x], s, e);
      if SameKey(o.campo, x, e) {
        forall y | y in s ensures !SameKey(o.campo, y, e) {
          var j :| 0 <= j < |s| && s[j] == y;
          assert j == 0 || !Before(o, s[j], s[0]);
          BeforeOrder(o, y, y, y);
          if j > 0 { BeforeThenNotAfter(o, x, s[0], y); }
          BeforeOrder(o, x, y, y);
        }
        SameKeyAsNone(o.campo, s, e);
      }
    } else {
      assert Sorted(o, s[1..]);
      InsertStable(o, x, s[1..], e);
    }
  }

  /** Python's stable sort, for either direction. */
  function Sort(o: Orden, s: seq<Elemento>): (r: seq<Elemento>)
    ensures multiset(r) == multiset(s)
    ensures |r| == |s|
  {
    if s == [] then []
    else
      var init := s[..|s| - 1];
      assert s == init + [s[|s| - 1]];
      var t := Sort(o, init);
      assert |multiset(Insert(o, s[|s| - 1], t))| == |s|;
      Insert(o, s[|s| - 1], t)
  }

  /** The sorted list is in the requested order. */
  lemma {:induction false} SortSorted(o: Orden, s: seq<Elemento>)
    ensures Sorted(o, Sort(o, s))
  {
    if s != [] {
      SortSorted(o, s[..|s| - 1]);
      InsertSorted(o, s[|s| - 1], Sort(o, s[..|s| - 1]));
    }
  }

  /** Records with equal keys keep their original relative order. */
  lemma {:induction false} SortStable(o: Orden, s: seq<Elemento>, e: Elemento)
    ensures SameKeyAs(o.campo, Sort(o, s), e) == SameKeyAs(o.campo, s, e)
  {
    if s != [] {
      var init := s[..|s| - 1];
      var last := s[|s| - 1];
      assert s == init + [last];
      SortStable(o, init, e);
      SortSorted(o, init);
      InsertStable(o, last, Sort(o, init), e);
      SameKeyAsAppend(o.campo, init, [last], e);
    }
  }
}
