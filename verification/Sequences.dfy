// Stock facts about sequences.
module Sequences {
  /** The results for all elements, one after the other. */
  function Collect<A, B>(f: A -> seq<B>, s: seq<A>): seq<B> {
    if s == [] then [] else Collect(f, s[..|s| - 1]) + f(s[|s| - 1])
  }

  lemma CollectOneMore<A, B>(f: A -> seq<B>, s: seq<A>, x: A)
    ensures Collect(f, s + [x]) == Collect(f, s) + f(x)
  {
    assert (s + [x])[..|s + [x]| - 1] == s;
  }

  lemma CollectOne<A, B>(f: A -> seq<B>, x: A)
    ensures Collect(f, [x]) == f(x)
  {
    CollectOneMore(f, [], x);
    assert [] + [x] == [x];
  }

  lemma {:induction false} CollectBoth<A, B>(f: A -> seq<B>, s: seq<A>, t: seq<A>)
    ensures Collect(f, s + t) == Collect(f, s) + Collect(f, t)
  {
    if t == [] {
      assert s + t == s;
    } else {
      var front, x := t[..|t| - 1], t[|t| - 1];
      CollectBoth(f, s, front);
      assert t == front + [x];
      InTwoParts(s, front, [x]);
      InTwoParts(Collect(f, s), Collect(f, front), f(x));
      CollectOneMore(f, s + front, x);
    }
  }

  lemma {:induction false} CollectNothing<A, B>(f: A -> seq<B>, s: seq<A>)
    requires forall i :: 0 <= i < |s| ==> f(s[i]) == []
    ensures Collect(f, s) == []
  {
    if s != [] {
      CollectNothing(f, s[..|s| - 1]);
    }
  }

  lemma {:induction false} CollectMember<A, B>(f: A -> seq<B>, s: seq<A>, i: nat)
    requires i < |s| && f(s[i]) != []
    ensures Collect(f, s) != []
  {
    if i < |s| - 1 {
      CollectMember(f, s[..|s| - 1], i);
    }
  }

  function Elements<T(==)>(s: seq<T>): set<T> { set x | x in s }

  /** The parts of a text, one after the other. */
  function Join(parts: seq<string>): string { if parts == [] then "" else parts[0] + Join(parts[1..]) }

  lemma {:induction false} JoinOneMore(parts: seq<string>, s: string)
    ensures Join(parts + [s]) == Join(parts) + s
  {
    if parts == [] {
      assert parts + [s] == [s] && [s][1..] == [];
    } else {
      JoinOneMore(parts[1..], s);
      assert (parts + [s])[1..] == parts[1..] + [s];
    }
  }

  lemma InTwoParts<T>(past: seq<T>, first: seq<T>, second: seq<T>)
    ensures past + (first + second) == past + first + second
  {
  }

  lemma Taken<T>(past: seq<T>, waiting: seq<T>, k: nat)
    requires k <= |waiting|
    ensures k < |waiting| ==> past + waiting[..k] + [waiting[k]] == past + waiting[..k + 1]
    ensures past + waiting[..0] == past && waiting[..|waiting|] == waiting
  {
  }
}
