/** What a raw string is: `r###"..."###` ends at the first quote that is followed by as many hashes as it was
    opened with. */
module RawStrings {
  import Lir

  datatype RawStrError =
    | InvalidStarter(badChar: char)
    | NoTerminator(expected: nat, found: nat, possibleTerminatorOffset: Lir.Option<nat>)
    | TooManyDelimiters(found: nat)

  const EOF_CHAR := '\0'

  // ---------- what a raw string is ----------

  /** The number of hashes from position `i` on. */
  function HashRun(s: string, i: nat): (n: nat)
    requires i <= |s|
    ensures i + n <= |s|
    decreases |s| - i
  {
    if i < |s| && s[i] == '#' then 1 + HashRun(s, i + 1) else 0
  }

  /** A quote at `q` with at least `n` hashes behind it. */
  predicate Closes(s: string, q: nat, n: nat) {
    q < |s| && s[q] == '"' && HashRun(s, q + 1) >= n
  }

  /** Where a raw string that was opened with `n` hashes ends, when its contents start at `from`. */
  ghost predicate EndsAt(s: string, from: nat, n: nat, end: nat) {
    exists q :: from <= q < |s| && Closes(s, q, n) && end == q + 1 + n && forall p :: from <= p < q ==> !Closes(s, p, n)
  }

  ghost predicate NeverCloses(s: string, from: nat, n: nat) {
    forall q :: from <= q < |s| ==> !Closes(s, q, n)
  }

  /** `best` is the longest run of hashes behind a quote between `from` and `to`. */
  ghost predicate Longest(s: string, from: nat, to: nat, best: nat)
    requires to <= |s|
  {
    && (forall q :: from <= q < to && s[q] == '"' ==> HashRun(s, q + 1) <= best)
    && (best > 0 ==> exists q :: from <= q < to && s[q] == '"' && HashRun(s, q + 1) == best)
  }

  /** `at` is the position behind the first quote that is followed by `best` hashes. */
  ghost predicate FirstLongest(s: string, from: nat, to: nat, best: nat, at: nat)
    requires to <= |s|
  {
    && from < at <= to && s[at - 1] == '"' && HashRun(s, at) == best
    && forall q :: from <= q < at - 1 && s[q] == '"' ==> HashRun(s, q + 1) < best
  }

  /** The contents between `from` and `to` have been searched: nothing there closes the string, `best` is
      the longest run behind a quote and `at` the first place where it occurs. */
  ghost predicate Searched(s: string, from: nat, to: nat, n: nat, best: nat, at: Lir.Option<nat>) {
    && from <= to <= |s|
    && (forall q :: from <= q < to ==> !Closes(s, q, n))
    && Longest(s, from, to, best)
    && match at
       case None => best == 0
       case Some(a) => best > 0 && FirstLongest(s, from, to, best, a)
  }

  lemma {:induction false} RunIsHashes(s: string, i: nat)
    requires i <= |s|
    ensures forall k :: i <= k < i + HashRun(s, i) ==> s[k] == '#'
    decreases |s| - i
  {
    if i < |s| && s[i] == '#' {
      RunIsHashes(s, i + 1);
    }
  }

  lemma SearchedNone(s: string, from: nat, n: nat)
    requires from <= |s|
    ensures Searched(s, from, from, n, 0, Lir.None)
  {
  }

  lemma NoQuotes(s: string, from: nat, a: nat, b: nat, n: nat, best: nat, at: Lir.Option<nat>)
    requires Searched(s, from, a, n, best, at) && a <= b <= |s| && forall q :: a <= q < b ==> s[q] != '"'
    ensures Searched(s, from, b, n, best, at)
  {
  }

  /** What is reported about a string that never closes: the longest run of hashes behind a quote and, if
      there is any, the first place where it occurs, counted from the start of the literal. */
  ghost predicate NotEnded(s: string, from: nat, n: nat, start: nat, prefixLen: nat, err: RawStrError) {
    && from <= |s| && NeverCloses(s, from, n)
    && err.NoTerminator? && err.expected == n && Longest(s, from, |s|, err.found)
    && match err.possibleTerminatorOffset
       case None => err.found == 0
       case Some(offset) =>
         err.found > 0 && start + offset >= prefixLen
         && FirstLongest(s, from, |s|, err.found, start + offset - prefixLen)
  }

  lemma SearchedAll(s: string, from: nat, n: nat, best: nat, at: Lir.Option<nat>, start: nat, prefixLen: nat)
    requires Searched(s, from, |s|, n, best, at) && (at.Some? ==> at.value > start)
    ensures var possible := match at case None => Lir.None case Some(a) => Lir.Some(a - start + prefixLen);
            NotEnded(s, from, n, start, prefixLen, NoTerminator(n, best, possible))
  {
  }

  lemma SearchEnds(s: string, from: nat, q: nat, n: nat, best: nat, at: Lir.Option<nat>)
    requires Searched(s, from, q, n, best, at) && q < |s| && s[q] == '"' && HashRun(s, q + 1) >= n
    ensures EndsAt(s, from, n, q + 1 + n)
  {
    assert Closes(s, q, n);
  }

  lemma LongestStep(s: string, from: nat, q: nat, best: nat)
    requires from <= q < |s| && s[q] == '"' && Longest(s, from, q, best)
    ensures var run := HashRun(s, q + 1); Longest(s, from, q + 1, if run > best then run else best)
  {
    hide HashRun;
    if HashRun(s, q + 1) <= best && best > 0 {
      var p :| from <= p < q && s[p] == '"' && HashRun(s, p + 1) == best;
      assert from <= p < q + 1;
    }
  }

  lemma FirstLongestStep(s: string, from: nat, q: nat, best: nat, at: nat)
    requires from <= q < |s| && s[q] == '"'
    ensures FirstLongest(s, from, q, best, at) && HashRun(s, q + 1) <= best ==> FirstLongest(s, from, q + 1, best, at)
    ensures Longest(s, from, q, best) && HashRun(s, q + 1) > best ==> FirstLongest(s, from, q + 1, HashRun(s, q + 1), q + 1)
  {
    hide HashRun;
  }

  lemma OneQuote(s: string, from: nat, q: nat, n: nat, best: nat, at: Lir.Option<nat>)
    requires Searched(s, from, q, n, best, at) && q < |s| && s[q] == '"' && HashRun(s, q + 1) < n
    ensures var run := HashRun(s, q + 1);
            Searched(s, from, q + 1 + run, n, if run > best then run else best, if run > best then Lir.Some(q + 1) else at)
  {
    var run := HashRun(s, q + 1);
    RunIsHashes(s, q + 1);
    LongestStep(s, from, q, best);
    FirstLongestStep(s, from, q, best, if at.Some? then at.value else 0);
    var next, where := if run > best then run else best, if run > best then Lir.Some(q + 1) else at;
    assert Searched(s, from, q + 1, n, next, where) by {
      hide Longest, FirstLongest, HashRun;
    }
    NoQuotes(s, from, q + 1, q + 1 + run, n, next, where);
  }

  /** A raw string has at most one end. */
  lemma EndIsUnique(s: string, from: nat, n: nat, a: nat, b: nat)
    requires EndsAt(s, from, n, a) && EndsAt(s, from, n, b)
    ensures a == b
  {
    var p :| from <= p < |s| && Closes(s, p, n) && a == p + 1 + n && forall r :: from <= r < p ==> !Closes(s, r, n);
    var q :| from <= q < |s| && Closes(s, q, n) && b == q + 1 + n && forall r :: from <= r < q ==> !Closes(s, r, n);
    assert p == q;
  }

  /** Quoting and reading back: a text put between a quote and a quote with `n` hashes is read back whole
      exactly when it holds no quote that is itself followed by `n` hashes. */
  lemma QuotedReadsBack(contents: string, n: nat, tail: string)
    requires HashRun(tail, 0) >= n
    ensures EndsAt(contents + "\"" + tail, 0, n, |contents| + 1 + n) <==> NeverCloses(contents, 0, n)
  {
    var s, q := contents + "\"" + tail, |contents|;
    assert s == contents + (['"'] + tail);
    RunAfter(contents + "\"", tail, n);
    assert Closes(s, q, n);
    forall p | 0 <= p < q ensures Closes(s, p, n) <==> Closes(contents, p, n) {
      RunStops(contents, ['"'] + tail, p + 1);
    }
    if EndsAt(s, 0, n, q + 1 + n) {
      assert forall p :: 0 <= p < q ==> !Closes(s, p, n);
    }
  }

  lemma {:induction false} RunStops(s: string, rest: string, i: nat)
    requires i <= |s| && rest != [] && rest[0] != '#'
    ensures HashRun(s + rest, i) == HashRun(s, i)
    decreases |s| - i
  {
    if i < |s| {
      RunStops(s, rest, i + 1);
    }
  }

  lemma RunAfter(s: string, tail: string, n: nat)
    requires HashRun(tail, 0) >= n
    ensures |s + tail| == |s| + |tail| && HashRun(s + tail, |s|) >= n
  {
    RunShifts(s, tail, 0);
  }

  lemma {:induction false} RunShifts(s: string, tail: string, i: nat)
    requires i <= |tail|
    ensures HashRun(s + tail, |s| + i) == HashRun(tail, i)
    decreases |tail| - i
  {
    if i < |tail| {
      RunShifts(s, tail, i + 1);
    }
  }
}
