/** Bytes, optional values and concatenation: the vocabulary every other module shares. */
module Bytes {

  type byte = b: int | 0 <= b < 256

  datatype Option<+T> = None | Some(value: T)

  /** The concatenation of `parts`, in order. */
  function Flatten<T>(parts: seq<seq<T>>): seq<T> {
    if parts == [] then [] else parts[0] + Flatten(parts[1..])
  }

  lemma {:induction false} FlattenAppend<T>(xs: seq<seq<T>>, ys: seq<seq<T>>)
    ensures Flatten(xs + ys) == Flatten(xs) + Flatten(ys)
  {
    if xs == [] {
      assert xs + ys == ys;
    } else {
      var head, rest := xs[0], xs[1..];
      assert (xs + ys)[0] == head && (xs + ys)[1..] == rest + ys;
      calc {
        Flatten(xs + ys);
        head + Flatten(rest + ys);
        { FlattenAppend(rest, ys); }
        head + (Flatten(rest) + Flatten(ys));
        head + Flatten(rest) + Flatten(ys);
      }
    }
  }

  lemma FlattenSnoc<T>(xs: seq<seq<T>>, y: seq<T>)
    ensures Flatten(xs + [y]) == Flatten(xs) + y
  {
    FlattenAppend(xs, [y]);
    assert Flatten([y]) == y + Flatten<T>([]);
  }

  lemma Assoc<T>(a: seq<T>, b: seq<T>, c: seq<T>)
    ensures a + (b + c) == a + b + c
  {
  }

  lemma PrefixCancel<T>(a: seq<T>, b: seq<T>, c: seq<T>)
    requires a + b <= a + c
    ensures b <= c
  {
    assert b == (a + b)[|a|..];
    assert c == (a + c)[|a|..];
    assert a + b == (a + c)[..|a| + |b|];
    assert b == c[..|b|];
  }

  /** The elements of `xs` that satisfy `keep`, in order. */
  function Filter<T>(xs: seq<T>, keep: T -> bool): seq<T> {
    if xs == [] then []
    else (if keep(xs[0]) then [xs[0]] else []) + Filter(xs[1..], keep)
  }

  lemma {:induction false} FilterAppend<T>(xs: seq<T>, ys: seq<T>, keep: T -> bool)
    ensures Filter(xs + ys, keep) == Filter(xs, keep) + Filter(ys, keep)
  {
    if xs == [] {
      assert xs + ys == ys;
    } else {
      var head, rest := if keep(xs[0]) then [xs[0]] else [], xs[1..];
      assert (xs + ys)[0] == xs[0] && (xs + ys)[1..] == rest + ys;
      calc {
        Filter(xs + ys, keep);
        head + Filter(rest + ys, keep);
        { FilterAppend(rest, ys, keep); }
        head + (Filter(rest, keep) + Filter(ys, keep));
        head + Filter(rest, keep) + Filter(ys, keep);
      }
    }
  }

  lemma {:induction false} FilterAll<T>(xs: seq<T>, keep: T -> bool)
    requires forall x <- xs :: keep(x)
    ensures Filter(xs, keep) == xs
  {
    if xs != [] {
      FilterAll(xs[1..], keep);
    }
  }
}
