/** Failure-compatible wrappers, the error taxonomy of the recovery engine and the
    string helpers that the JavaScript code relies on (`indexOf(p) === 0`,
    `split`, `replace` with a global pattern). */
module Common {

  datatype Option<+T> = None | Some(value: T)

  /** The exceptions the TypeScript code throws, one constructor per kind. */
  datatype Error =
    | XmlParse(message: string)         // XmlParseException
    | Discovery(code: Option<string>)   // DiscoveryError, carries the response code
    | Copy(code: Option<string>)        // CopyError, carries the response code
    | Transport(message: string)        // a rejected host/HTTP request or token request
    | TypeError(message: string)        // a property read on `undefined`
    | InvalidCharacter(message: string) // atob on a string that is not base64
    | Plain(message: string)            // `new Error(message)`

  datatype Result<+T> = Ok(value: T) | Err(error: Error) {
    predicate IsFailure() {
      Err?
    }

    function PropagateFailure<U>(): Result<U>
      requires Err?
    {
      Err(error)
    }

    function Extract(): T
      requires Ok?
    {
      value
    }
  }

  /** `f(xs[k])` is the first application that fails. */
  predicate FirstFailure<A, B>(xs: seq<A>, f: A -> Result<B>, k: int) {
    0 <= k < |xs| && f(xs[k]).Err? && forall j :: 0 <= j < k ==> f(xs[j]).Ok?
  }

  /** Applies `f` to every element in order, as a loop whose body may throw: the
      results in order, or the error of the first application that fails. */
  function MapResult<A, B>(xs: seq<A>, f: A -> Result<B>): Result<seq<B>> {
    if xs == [] then Ok([])
    else
      var init :- MapResult(xs[..|xs| - 1], f);
      var y :- f(xs[|xs| - 1]);
      Ok(init + [y])
  }

  /** The loop succeeds exactly when every application does, and then yields their
      results in order. */
  lemma {:induction false} MapResultOk<A, B>(xs: seq<A>, f: A -> Result<B>)
    ensures MapResult(xs, f).Ok? <==> forall k :: 0 <= k < |xs| ==> f(xs[k]).Ok?
    ensures MapResult(xs, f).Ok? ==>
      |MapResult(xs, f).value| == |xs| && forall k :: 0 <= k < |xs| ==> MapResult(xs, f).value[k] == f(xs[k]).value
    decreases |xs|
  {
    if xs != [] {
      var n := |xs| - 1;
      MapResultOk(xs[..n], f);
      assert forall k :: 0 <= k < n ==> xs[..n][k] == xs[k];
    }
  }

  /** The loop stops at the first failure and reports its error. */
  lemma {:induction false} MapResultFirstFailure<A, B>(xs: seq<A>, f: A -> Result<B>, i: int)
    requires FirstFailure(xs, f, i)
    ensures MapResult(xs, f) == Err(f(xs[i]).error)
    decreases |xs|
  {
    var n := |xs| - 1;
    if i < n {
      assert FirstFailure(xs[..n], f, i);
      MapResultFirstFailure(xs[..n], f, i);
    } else {
      assert forall k :: 0 <= k < n ==> f(xs[..n][k]).Ok?;
      MapResultOk(xs[..n], f);
    }
  }

  /** A failing application after a run of successes is the error of the whole loop,
      whatever follows it. */
  lemma MapResultStops<A, B>(pre: seq<A>, x: A, rest: seq<A>, f: A -> Result<B>)
    requires MapResult(pre, f).Ok? && f(x).Err?
    ensures MapResult(pre + [x] + rest, f) == Err(f(x).error)
  {
    var xs := pre + [x] + rest;
    assert xs[..|pre|] == pre;
    assert xs[|pre|] == x;
    MapResultStopsAt(xs, f, |pre|);
  }

  /** The loop over `xs` stops at index `i` when the application there fails. */
  lemma MapResultStopsAt<A, B>(xs: seq<A>, f: A -> Result<B>, i: int)
    requires 0 <= i < |xs| && MapResult(xs[..i], f).Ok? && f(xs[i]).Err?
    ensures MapResult(xs, f) == Err(f(xs[i]).error)
  {
    MapResultOk(xs[..i], f);
    forall j | 0 <= j < i
      ensures f(xs[j]).Ok?
    {
      assert xs[..i][j] == xs[j];
    }
    MapResultFirstFailure(xs, f, i);
  }

  /** The loop over `xs` gets one step further when the application at `i` succeeds. */
  lemma MapResultStep<A, B>(xs: seq<A>, f: A -> Result<B>, i: int)
    requires 0 <= i < |xs| && MapResult(xs[..i], f).Ok? && f(xs[i]).Ok?
    ensures MapResult(xs[..i + 1], f) == Ok(MapResult(xs[..i], f).value + [f(xs[i]).value])
  {
    assert xs[..i + 1] == xs[..i] + [xs[i]];
    MapResultSnoc(xs[..i], f, xs[i]);
  }

  /** One more successful step extends the results. */
  lemma MapResultSnoc<A, B>(xs: seq<A>, f: A -> Result<B>, x: A)
    requires MapResult(xs, f).Ok? && f(x).Ok?
    ensures MapResult(xs + [x], f) == Ok(MapResult(xs, f).value + [f(x).value])
  {
    assert (xs + [x])[..|xs|] == xs;
  }

  /** JavaScript truthiness of an optional string: defined and non-empty. */
  predicate Truthy(s: Option<string>) {
    s.Some? && s.value != ""
  }

  /** `s ?? d` */
  function OrElse(s: Option<string>, d: string): string {
    if s.Some? then s.value else d
  }

  /** `s.indexOf(p) === 0`, i.e. `s` starts with `p` (the empty prefix always matches). */
  predicate StartsWith(s: string, p: string) {
    |p| <= |s| && s[..|p|] == p
  }

  /** `p` occurs in `s` starting at position `i`. */
  predicate OccursAt(s: string, p: string, i: int) {
    0 <= i && i + |p| <= |s| && s[i..i + |p|] == p
  }

  /** `p` occurs somewhere in `s`. */
  predicate Contains(s: string, p: string) {
    exists i :: 0 <= i <= |s| - |p| && OccursAt(s, p, i)
  }

  /** Index of the first occurrence of character `c` in `s`, or |s| when there is none. */
  function IndexOf(s: string, c: char): (r: nat)
    ensures r <= |s|
    ensures r < |s| ==> s[r] == c
    ensures forall k :: 0 <= k < r ==> s[k] != c
    ensures r == |s| <==> c !in s
  {
    if s == [] then 0 else if s[0] == c then 0 else 1 + IndexOf(s[1..], c)
  }

  /** `s.split(c)` for a one-character separator. */
  function Split(s: string, c: char): (parts: seq<string>)
    ensures |parts| >= 1
    decreases |s|
  {
    var i := IndexOf(s, c);
    if i == |s| then [s] else [s[..i]] + Split(s[i + 1..], c)
  }

  lemma SplitNoSeparator(s: string, c: char)
    requires c !in s
    ensures Split(s, c) == [s]
  {
  }

  /** Splitting `a + [c] + b` cuts at the first separator when `a` holds none. */
  lemma {:induction false} SplitAtFirst(a: string, c: char, b: string)
    requires c !in a
    ensures Split(a + [c] + b, c) == [a] + Split(b, c)
  {
    var s := a + [c] + b;
    IndexOfPast(a, c, b);
    assert s[..|a|] == a;
    assert s[|a| + 1..] == b;
  }

  lemma {:induction false} IndexOfPast(a: string, c: char, b: string)
    requires c !in a
    ensures IndexOf(a + [c] + b, c) == |a|
  {
    var s := a + [c] + b;
    assert s[|a|] == c;
    assert forall k :: 0 <= k < |a| ==> s[k] == a[k];
  }

  /** `s.replace(new RegExp(pat, "g"), rep)` for a pattern without regular-expression
      metacharacters: every leftmost, non-overlapping occurrence is replaced. */
  function ReplaceAll(s: string, pat: string, rep: string): string
    requires pat != []
    decreases |s|
  {
    if |s| < |pat| then s
    else if s[..|pat|] == pat then rep + ReplaceAll(s[|pat|..], pat, rep)
    else [s[0]] + ReplaceAll(s[1..], pat, rep)
  }

  /** A string in which the pattern never occurs is left as it is. */
  lemma {:induction false} ReplaceAllAbsent(s: string, pat: string, rep: string)
    requires pat != []
    requires !Contains(s, pat)
    ensures ReplaceAll(s, pat, rep) == s
    decreases |s|
  {
    if |s| >= |pat| {
      assert !OccursAt(s, pat, 0);
      assert s[0..|pat|] == s[..|pat|];
      forall i | 0 <= i && i + |pat| <= |s| - 1
        ensures !OccursAt(s[1..], pat, i)
      {
        assert s[1..][i..i + |pat|] == s[i + 1..i + 1 + |pat|];
        assert !OccursAt(s, pat, i + 1);
      }
      ReplaceAllAbsent(s[1..], pat, rep);
    }
  }

  /** An occurrence at the very front is replaced and the rest is processed alone. */
  lemma ReplaceAllFront(pat: string, rep: string, rest: string)
    requires pat != []
    ensures ReplaceAll(pat + rest, pat, rep) == rep + ReplaceAll(rest, pat, rep)
  {
    assert (pat + rest)[..|pat|] == pat;
    assert (pat + rest)[|pat|..] == rest;
  }

  /** `s.replaceAll(c, d)` for a one-character search string. */
  function ReplaceChar(s: string, c: char, d: char): (r: string)
    ensures |r| == |s|
    ensures forall i :: 0 <= i < |s| ==> r[i] == (if s[i] == c then d else s[i])
  {
    seq(|s|, i requires 0 <= i < |s| => if s[i] == c then d else s[i])
  }

  /** `strings.join("")` */
  function Concat(parts: seq<string>): string {
    if parts == [] then "" else Concat(parts[..|parts| - 1]) + parts[|parts| - 1]
  }

  lemma {:induction false} ConcatAppend(a: seq<string>, b: seq<string>)
    ensures Concat(a + b) == Concat(a) + Concat(b)
    decreases |b|
  {
    if b == [] {
      assert a + b == a;
    } else {
      var init, last := b[..|b| - 1], b[|b| - 1];
      assert (a + b)[..|a + b| - 1] == a + init && (a + b)[|a + b| - 1] == last;
      assert Concat(a + b) == Concat(a + init) + last;
      assert Concat(b) == Concat(init) + last;
      ConcatAppend(a, init);
      assert Concat(a) + Concat(init) + last == Concat(a) + (Concat(init) + last);
    }
  }

  lemma Assoc<T>(a: seq<T>, b: seq<T>, c: seq<T>)
    ensures a + b + c == a + (b + c)
  {
  }
}
