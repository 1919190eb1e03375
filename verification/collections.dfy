/** Moving between the sets a message holds and the lists its wire form
    holds: enumerating a set into a list (a Java stream over a `HashSet`,
    in no particular order) and collecting a list of decoded items back into
    a set (`Collectors.toSet()`), failing on the first item that does not
    decode. */
module Collections {
  import opened Wrappers

  /** The elements of a list, as a set. */
  function Elements<T>(xs: seq<T>): set<T> {
    set x | x in xs
  }

  predicate Distinct<T(==)>(xs: seq<T>) {
    forall i, j :: 0 <= i < j < |xs| ==> xs[i] != xs[j]
  }

  /** `xs` lists every element of `s` exactly once, in some order. */
  predicate IsEnumeration<T(==)>(xs: seq<T>, s: set<T>) {
    Elements(xs) == s && Distinct(xs)
  }

  /** A list that names each element of a set once is as long as the set
      is large. */
  lemma {:induction false} EnumerationSize<T>(xs: seq<T>, s: set<T>)
    requires IsEnumeration(xs, s)
    ensures |xs| == |s|
    decreases |xs|
  {
    if xs != [] {
      var tail := xs[1..];
      assert Distinct(tail) by {
        forall i, j | 0 <= i < j < |tail| ensures tail[i] != tail[j] {
          assert tail[i] == xs[i + 1] && tail[j] == xs[j + 1];
        }
      }
      assert xs[0] !in tail by {
        forall j | 0 <= j < |tail| ensures tail[j] != xs[0] {
          assert tail[j] == xs[j + 1];
        }
      }
      assert Elements(xs) == {xs[0]} + Elements(tail);
      EnumerationSize(tail, Elements(tail));
    }
  }

  /** `f` applied to every element, keeping the order. */
  function Map<A, B>(xs: seq<A>, f: A -> B): (ys: seq<B>)
    ensures |ys| == |xs|
    ensures forall i :: 0 <= i < |xs| ==> ys[i] == f(xs[i])
  {
    seq(|xs|, i requires 0 <= i < |xs| => f(xs[i]))
  }

  /** Stream a set into a list: every element once, in an order the set
      chooses. */
  method Enumerate<T(==)>(s: set<T>) returns (xs: seq<T>)
    ensures IsEnumeration(xs, s)
    ensures |xs| == |s|
  {
    xs := [];
    var rest := s;
    while rest != {}
      invariant rest <= s
      invariant forall x :: x in xs <==> x in s && x !in rest
      invariant Distinct(xs)
      invariant |xs| + |rest| == |s|
      decreases |rest|
    {
      var x :| x in rest;
      xs := xs + [x];
      rest := rest - {x};
    }
  }

  /** Decode every item of `ws` in order and collect the results into a set;
      the first item that does not decode fails the whole list. */
  function CollectToSet<W, T, E>(ws: seq<W>, decode: W -> Result<T, E>): (r: Result<set<T>, E>)
    ensures r.Success? <==> forall i :: 0 <= i < |ws| ==> decode(ws[i]).Success?
    // a failure reports the error of the first item that fails
    ensures r.Failure? ==> exists i :: 0 <= i < |ws| && decode(ws[i]) == Failure(r.error)
                                      && forall k :: 0 <= k < i ==> decode(ws[k]).Success?
    ensures r.Success? ==> |r.value| <= |ws|
    ensures r.Success? ==> r.value == set i | 0 <= i < |ws| :: decode(ws[i]).value
  {
    if ws == [] then Success({})
    else
      match decode(ws[0])
      case Failure(e) => Failure(e)
      case Success(t) =>
        match CollectToSet(ws[1..], decode)
        case Failure(e) => Failure(e)
        case Success(rest) =>
          CollectCons(ws, decode, t, rest);
          Success({t} + rest)
  }

  /** Adding the head's decoded item to the tail's collected set gives the
      collected set of the whole list. */
  lemma CollectCons<W, T, E>(ws: seq<W>, decode: W -> Result<T, E>, t: T, rest: set<T>)
    requires ws != [] && decode(ws[0]) == Success(t)
    requires forall i :: 0 <= i < |ws| ==> decode(ws[i]).Success?
    requires rest == set i | 0 <= i < |ws| - 1 :: decode(ws[1..][i]).value
    requires |rest| <= |ws| - 1
    ensures {t} + rest == set i | 0 <= i < |ws| :: decode(ws[i]).value
    ensures |{t} + rest| <= |ws|
  {
    var whole := set i | 0 <= i < |ws| :: decode(ws[i]).value;
    forall x | x in whole ensures x in {t} + rest {
      var i :| 0 <= i < |ws| && decode(ws[i]).value == x;
      if i > 0 {
        assert ws[1..][i - 1] == ws[i];
      }
    }
    forall x | x in rest ensures x in whole {
      var i :| 0 <= i < |ws| - 1 && decode(ws[1..][i]).value == x;
      assert ws[1..][i] == ws[i + 1];
    }
  }

  /** Every decoded item of `a` is also a decoded item of `b` when `b`
      holds every element of `a`. */
  lemma CollectedSubset<W, T, E>(a: seq<W>, b: seq<W>, decode: W -> Result<T, E>)
    requires Elements(a) <= Elements(b)
    requires CollectToSet(a, decode).Success? && CollectToSet(b, decode).Success?
    ensures CollectToSet(a, decode).value <= CollectToSet(b, decode).value
  {
    var ra := CollectToSet(a, decode).value;
    var rb := CollectToSet(b, decode).value;
    forall t | t in ra ensures t in rb {
      var k :| 0 <= k < |a| && decode(a[k]).value == t;
      assert a[k] in Elements(b);
      var m :| 0 <= m < |b| && b[m] == a[k];
      assert decode(b[m]).value == t;
    }
  }

  /** Dropping the later copy of a repeated item keeps the list's elements. */
  lemma DropRepeatKeepsElements<W>(ws: seq<W>, i: nat, j: nat)
    requires i < j < |ws| && ws[i] == ws[j]
    ensures Elements(ws[..j] + ws[j + 1..]) == Elements(ws)
  {
    var shorter := ws[..j] + ws[j + 1..];
    assert forall k :: 0 <= k < |shorter| ==> shorter[k] == if k < j then ws[k] else ws[k + 1];
    forall w | w in Elements(ws) ensures w in Elements(shorter) {
      var k :| 0 <= k < |ws| && ws[k] == w;
      if k < j {
        assert shorter[k] == w;
      } else if k == j {
        assert shorter[i] == w;
      } else {
        assert shorter[k - 1] == w;
      }
    }
  }

  /** A list in which some item occurs twice collects into a set strictly
      smaller than the list: the duplicate collapses. */
  lemma CollectWithDuplicate<W, T, E>(ws: seq<W>, decode: W -> Result<T, E>, i: nat, j: nat)
    requires i < j < |ws| && ws[i] == ws[j]
    requires CollectToSet(ws, decode).Success?
    ensures |CollectToSet(ws, decode).value| < |ws|
  {
    var shorter := ws[..j] + ws[j + 1..];
    DropRepeatKeepsElements(ws, i, j);
    assert CollectToSet(shorter, decode).Success? by {
      forall k | 0 <= k < |shorter| ensures decode(shorter[k]).Success? {
        assert shorter[k] in Elements(ws);
      }
    }
    CollectedSubset(ws, shorter, decode);
    CollectedSubset(shorter, ws, decode);
    var whole := CollectToSet(ws, decode).value;
    var fewer := CollectToSet(shorter, decode).value;
    assert whole == fewer;
    assert |fewer| <= |ws| - 1;
  }

  /** Collecting the encodings of a list decodes every element back, and
      the result holds exactly the list's elements. */
  lemma {:induction false} CollectEncoded<T, W, E>(xs: seq<T>, encode: T -> W, decode: W -> Result<T, E>)
    requires forall x :: decode(encode(x)) == Success(x)
    ensures CollectToSet(Map(xs, encode), decode) == Success(Elements(xs))
  {
    var ws := Map(xs, encode);
    if xs != [] {
      var tail := Map(xs[1..], encode);
      assert ws[1..] == tail;
      CollectEncoded(xs[1..], encode, decode);
      assert decode(ws[0]) == Success(xs[0]);
      assert CollectToSet(ws, decode) == Success({xs[0]} + Elements(xs[1..]));
      assert Elements(xs) == {xs[0]} + Elements(xs[1..]);
    } else {
      assert ws == [];
      assert Elements(xs) == {};
    }
  }
}
