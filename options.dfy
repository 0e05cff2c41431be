/** `sorted(options.items())`: directive options in key order. */
module OptionOrder {
  import opened Strings

  predicate SortedByKey(opts: seq<(string, string)>) {
    forall i :: 0 < i < |opts| ==> StrLe(opts[i - 1].0, opts[i].0)
  }

  /** Put `x` in front of the first option whose key is not smaller. */
  function Insert(x: (string, string), opts: seq<(string, string)>): (r: seq<(string, string)>)
    ensures |r| == |opts| + 1
    ensures r[0] == x || (opts != [] && r[0] == opts[0])
  {
    if opts == [] then [x]
    else if StrLe(x.0, opts[0].0) then [x] + opts
    else [opts[0]] + Insert(x, opts[1..])
  }

  /** Insertion adds `x` and keeps every option. */
  lemma {:induction false} InsertPermutes(x: (string, string), opts: seq<(string, string)>)
    ensures multiset(Insert(x, opts)) == multiset(opts) + multiset{x}
  {
    if opts != [] && !StrLe(x.0, opts[0].0) {
      InsertPermutes(x, opts[1..]);
      assert opts == [opts[0]] + opts[1..];
    }
  }

  /** A sequence is sorted when its head is below the next key and its tail is sorted. */
  lemma ConsSorted(y: (string, string), rest: seq<(string, string)>)
    requires SortedByKey(rest) && (rest != [] ==> StrLe(y.0, rest[0].0))
    ensures SortedByKey([y] + rest)
  {
    var r := [y] + rest;
    forall i | 0 < i < |r|
      ensures StrLe(r[i - 1].0, r[i].0)
    {
      if i > 1 {
        assert r[i - 1] == rest[i - 2] && r[i] == rest[i - 1];
      }
    }
  }

  /** Insertion into a sorted sequence keeps it sorted. */
  lemma {:induction false} InsertSorted(x: (string, string), opts: seq<(string, string)>)
    requires SortedByKey(opts)
    ensures SortedByKey(Insert(x, opts))
  {
    if opts == [] {
    } else if StrLe(x.0, opts[0].0) {
      ConsSorted(x, opts);
    } else {
      var rest := opts[1..];
      assert SortedByKey(rest) by {
        forall i | 0 < i < |rest|
          ensures StrLe(rest[i - 1].0, rest[i].0)
        {
          assert rest[i - 1] == opts[i] && rest[i] == opts[i + 1];
        }
      }
      InsertSorted(x, rest);
      StrLeTotal(x.0, opts[0].0);
      var r := Insert(x, rest);
      assert rest != [] ==> StrLe(opts[0].0, rest[0].0) by {
        if rest != [] {
          assert opts[1] == rest[0];
        }
      }
      ConsSorted(opts[0], r);
    }
  }

  /** The options in ascending key order: sorted, and a permutation of the input. */
  function SortByKey(opts: seq<(string, string)>): (r: seq<(string, string)>)
    ensures SortedByKey(r)
    ensures multiset(r) == multiset(opts)
  {
    if opts == [] then []
    else
      var rest := SortByKey(opts[1..]);
      InsertSorted(opts[0], rest);
      InsertPermutes(opts[0], rest);
      assert opts == [opts[0]] + opts[1..];
      Insert(opts[0], rest)
  }
}
