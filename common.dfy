/**
 * Values shared by every recon module: an optional value, the state of a
 * text file as the program sees it when it opens and reads it, and the
 * outcome of running an external tool to completion.
 */
module Common {

  datatype Option<+T> = None | Some(value: T)
  {
    /** The value, or `default` when there is none (a `dict.get` with a default). */
    function GetOr(default: T): (r: T)
      ensures None? ==> r == default
      ensures Some? ==> r == value
    {
      if Some? then value else default
    }
  }

  /**
   * What a step that opens a file for writing outside any `try` gives its
   * caller: the value it returns, or the exception that escapes it when
   * the file cannot be opened.
   */
  datatype Raising<+T> = Returned(value: T) | OpenFailed

  /**
   * A text file seen through Python's `open`/line iteration.
   *   Absent            - `os.path.exists` is false
   *   Readable(lines)   - the file exists and every line can be read
   *   FailsAfter(lines) - the file exists, `lines` were read, then reading raised
   *                       (an open that fails straight away is FailsAfter([]))
   * Lines are given as the iteration yields them; whether the trailing newline
   * is still attached does not matter to any caller, since each one strips.
   */
  datatype FileState =
    | Absent
    | Readable(lines: seq<string>)
    | FailsAfter(partial: seq<string>)
  {
    predicate Exists() { !Absent? }

    /** The lines a `for line in f` loop sees before it finishes or raises. */
    function LinesSeen(): seq<string>
    {
      match this
      case Absent => []
      case Readable(ls) => ls
      case FailsAfter(ls) => ls
    }
  }

  /**
   * What `subprocess.run` does for the caller: the process exits with a
   * code and captured output, or the timeout expires, or the call raises
   * (binary missing, permissions, ...).
   */
  datatype ProcessOutcome =
    | Exited(code: int, stdout: string, stderr: string)
    | TimedOut
    | Raised
  {
    predicate Succeeded() { Exited? && code == 0 }
  }

  /** The number of positions of `s` whose element satisfies `p`. */
  ghost function CountWhere<T>(s: seq<T>, p: T -> bool): nat
  {
    |set i | 0 <= i < |s| && p(s[i])|
  }

  /** Counting over one more element adds one exactly when it satisfies `p`. */
  lemma CountWhereStep<T>(s: seq<T>, p: T -> bool)
    requires s != []
    ensures CountWhere(s, p) == CountWhere(s[..|s| - 1], p) + (if p(s[|s| - 1]) then 1 else 0)
  {
    var n := |s| - 1;
    var before := set i | 0 <= i < n && p(s[..n][i]);
    var now := set i | 0 <= i < |s| && p(s[i]);
    assert forall i :: 0 <= i < n ==> s[..n][i] == s[i];
    assert now == before + (if p(s[n]) then {n} else {});
    assert n !in before;
  }

  /** A subset is no larger than its superset, and equal to it when as large. */
  lemma SubsetCard<T>(a: set<T>, b: set<T>)
    requires a <= b
    ensures |a| <= |b|
    ensures |a| == |b| ==> a == b
  {
    assert b == a + (b - a);
    assert |b| == |a| + |b - a|;
  }

  /** The elements of `s` that satisfy `p`. */
  ghost function Filter<T>(s: set<T>, p: T -> bool): set<T>
  {
    set x | x in s && p(x)
  }

  /** Adding one element to the set adds it to the filtered set exactly when it satisfies `p`. */
  lemma FilterAdd<T>(s: set<T>, x: T, p: T -> bool)
    requires x !in s
    ensures Filter(s + {x}, p) == Filter(s, p) + (if p(x) then {x} else {})
    ensures |Filter(s + {x}, p)| == |Filter(s, p)| + (if p(x) then 1 else 0)
  {
    assert Filter(s + {x}, p) == Filter(s, p) + (if p(x) then {x} else {});
  }

  /**
   * The elements of a set in the order iterating over it yields them,
   * which nothing fixes: each element once.
   */
  method Enumerate<T>(s: set<T>) returns (listed: seq<T>)
    ensures |listed| == |s|
    ensures forall x :: x in listed <==> x in s
    ensures forall i, j :: 0 <= i < j < |listed| ==> listed[i] != listed[j]
  {
    listed := [];
    var rest := s;
    while rest != {}
      invariant rest <= s
      invariant forall x :: x in listed <==> x in s && x !in rest
      invariant |listed| + |rest| == |s|
      invariant forall i, j :: 0 <= i < j < |listed| ==> listed[i] != listed[j]
      decreases |rest|
    {
      var x :| x in rest;
      listed := listed + [x];
      rest := rest - {x};
    }
  }

  /** The image of `s` under `f`. */
  ghost function Image<T, U>(s: set<T>, f: T -> U): set<U>
  {
    set x | x in s :: f(x)
  }

  /** Filtering then mapping, over one more element. */
  lemma ImageFilterAdd<T, U>(s: set<T>, x: T, p: T -> bool, f: T -> U)
    requires x !in s
    ensures Image(Filter(s + {x}, p), f) == Image(Filter(s, p), f) + (if p(x) then {f(x)} else {})
  {
    FilterAdd(s, x, p);
    if p(x) {
      ImageStep(Filter(s, p), x, f);
    }
  }

  lemma ImageStep<T, U>(s: set<T>, x: T, f: T -> U)
    ensures Image(s + {x}, f) == Image(s, f) + {f(x)}
  {
    assert Image(s + {x}, f) == Image(s, f) + {f(x)};
  }

  /** `f` applied to every element of `s`, the results concatenated in order. */
  function FlatMap<T, U>(s: seq<T>, f: T -> seq<U>): seq<U>
    decreases |s|
  {
    if s == [] then [] else FlatMap(s[..|s| - 1], f) + f(s[|s| - 1])
  }

  lemma FlatMapStep<T, U>(s: seq<T>, j: int, f: T -> seq<U>)
    requires 0 <= j < |s|
    ensures FlatMap(s[..j + 1], f) == FlatMap(s[..j], f) + f(s[j])
  {
    assert s[..j + 1][..j] == s[..j];
  }

  lemma FlatMapSingle<T, U>(x: T, f: T -> seq<U>)
    ensures FlatMap([x], f) == f(x)
  {
    assert [x][..0] == [];
  }

  lemma {:induction false} FlatMapConcat<T, U>(a: seq<T>, b: seq<T>, f: T -> seq<U>)
    ensures FlatMap(a + b, f) == FlatMap(a, f) + FlatMap(b, f)
    decreases |b|
  {
    if b == [] {
      assert a + b == a;
    } else {
      var b0 := b[..|b| - 1];
      FlatMapConcat(a, b0, f);
      assert (a + b)[..|a + b| - 1] == a + b0;
      assert (a + b)[|a + b| - 1] == b[|b| - 1];
    }
  }
}
