/**
 * A value-level model of a Choreographer's state and of what its calls do to
 * it. The class in choreographer.dfy is proved to follow `Step`; the lemmas
 * here state what any sequence of `add`/`pause` calls produces.
 */
module Schedule {
  import opened Values

  /** One call on a Choreographer: `add(fn, duration)` or `pause(duration)`. */
  datatype Call<F> =
    | AddCall(fn: Value<F>, duration: Value<F>)
    | PauseCall(duration: Value<F>)

  /** The three fields of a Choreographer. */
  datatype State<F> = State(duration: int, time: int, choreography: map<int, seq<F>>)

  /** One `setTimeout(fn, delay)` request issued by `perform`. */
  datatype Request<F> = Request(delay: int, fn: F)

  /** The functions stored at offset `k`, empty where there is no bucket. */
  function Bucket<F>(c: map<int, seq<F>>, k: int): seq<F> {
    if k in c then c[k] else []
  }

  /** `c` with `f` appended to the bucket at `k`. */
  function Insert<F>(c: map<int, seq<F>>, k: int, f: F): (r: map<int, seq<F>>)
    ensures r.Keys == c.Keys + {k}
    ensures Bucket(r, k) == Bucket(c, k) + [f]
    ensures forall j :: j != k ==> Bucket(r, j) == Bucket(c, j)
  {
    c[k := Bucket(c, k) + [f]]
  }

  /** The state a freshly constructed Choreographer holds. */
  function Initial<F>(d: Value<F>): (s: State<F>)
    requires ConstructorAccepts(d)
    ensures s.time == 0 && s.choreography == map[]
    ensures s.duration == if d.Number? && d.n != 0 then d.n else DefaultDuration
  {
    State(ConstructorDuration(d), 0, map[])
  }

  /** How far one call moves the cursor; a rejected `add` moves it not at all. */
  function Advance<F>(fallback: int, c: Call<F>): int {
    match c
    case AddCall(fn, d) => if AddRejects(fn) then 0 else AddStep(fallback, d)
    case PauseCall(d) => PauseStep(fallback, d)
  }

  /** The state after one call; a rejected `add` leaves the state as it was. */
  function Step<F>(s: State<F>, c: Call<F>): (r: State<F>)
    ensures r.duration == s.duration
    ensures r.time == s.time + Advance(s.duration, c)
    ensures c.PauseCall? || !c.fn.Function? ==> r.choreography == s.choreography
  {
    match c
    case AddCall(fn, d) =>
      if AddRejects(fn) then s
      else State(s.duration, s.time + AddStep(s.duration, d), Insert(s.choreography, s.time, fn.f))
    case PauseCall(d) =>
      State(s.duration, s.time + PauseStep(s.duration, d), s.choreography)
  }

  /** The state after the calls, applied from first to last. */
  function Replay<F>(s: State<F>, calls: seq<Call<F>>): State<F>
    decreases |calls|
  {
    if calls == [] then s else Step(Replay(s, calls[..|calls| - 1]), calls[|calls| - 1])
  }

  /** The sum of the effective steps of the calls. */
  function SumSteps<F>(fallback: int, calls: seq<Call<F>>): int
    decreases |calls|
  {
    if calls == [] then 0
    else SumSteps(fallback, calls[..|calls| - 1]) + Advance(fallback, calls[|calls| - 1])
  }

  /** The number of calls that are an `add` with a function. */
  function Added<F>(calls: seq<Call<F>>): nat
    decreases |calls|
  {
    if calls == [] then 0
    else Added(calls[..|calls| - 1]) + if calls[|calls| - 1].AddCall? && calls[|calls| - 1].fn.Function? then 1 else 0
  }

  /**
   * Where each accepted `add` places its function, in call order: at the start
   * offset plus the steps of all earlier calls, never its own.
   */
  function Placements<F>(fallback: int, start: int, calls: seq<Call<F>>): seq<Request<F>>
    decreases |calls|
  {
    if calls == [] then []
    else
      var earlier := calls[..|calls| - 1];
      var last := calls[|calls| - 1];
      Placements(fallback, start, earlier)
      + if last.AddCall? && last.fn.Function? then [Request(start + SumSteps(fallback, earlier), last.fn.f)] else []
  }

  /** The functions of the requests whose delay is `k`, in request order. */
  function FnsAt<F>(rs: seq<Request<F>>, k: int): seq<F>
    decreases |rs|
  {
    if rs == [] then []
    else FnsAt(rs[..|rs| - 1], k) + if rs[|rs| - 1].delay == k then [rs[|rs| - 1].fn] else []
  }

  /** Appending a request extends only the offset of its delay. */
  lemma FnsAtAppend<F>(rs: seq<Request<F>>, r: Request<F>, k: int)
    ensures FnsAt(rs + [r], k) == FnsAt(rs, k) + if r.delay == k then [r.fn] else []
  {
    assert (rs + [r])[..|rs|] == rs;
  }

  /** The requests for one bucket: each of its functions with the bucket's offset as delay, in order. */
  function Issue<F>(t: int, fns: seq<F>): (rs: seq<Request<F>>)
    ensures |rs| == |fns|
    ensures forall i :: 0 <= i < |rs| ==> rs[i] == Request(t, fns[i])
    decreases |fns|
  {
    if fns == [] then [] else Issue(t, fns[..|fns| - 1]) + [Request(t, fns[|fns| - 1])]
  }

  /** Issuing a bucket after other requests adds exactly that bucket's functions at its offset. */
  lemma {:induction false} FnsAtIssue<F>(rs: seq<Request<F>>, t: int, fns: seq<F>, k: int)
    ensures FnsAt(rs + Issue(t, fns), k) == FnsAt(rs, k) + if k == t then fns else []
    decreases |fns|
  {
    if fns == [] {
      assert rs + Issue(t, fns) == rs;
    } else {
      var init := fns[..|fns| - 1];
      var r := Request(t, fns[|fns| - 1]);
      FnsAtIssue(rs, t, init, k);
      assert rs + Issue(t, fns) == (rs + Issue(t, init)) + [r];
      FnsAtAppend(rs + Issue(t, init), r, k);
      if k == t {
        assert fns == init + [fns[|fns| - 1]];
      }
    }
  }

  /**
   * The requests issued for every bucket except those at the offsets in
   * `remaining`: each visited bucket's functions at its offset, in order,
   * nothing yet for the others, and one request per visited function.
   */
  ghost predicate IssuedExcept<F>(c: map<int, seq<F>>, remaining: set<int>, rs: seq<Request<F>>) {
    && remaining <= c.Keys
    && FnsIssuedExcept(c, remaining, rs)
    && DelaysIssuedExcept(c, remaining, rs)
    && |rs| == Count(c - remaining)
  }

  ghost predicate FnsIssuedExcept<F>(c: map<int, seq<F>>, remaining: set<int>, rs: seq<Request<F>>) {
    && (forall k :: k !in remaining ==> FnsAt(rs, k) == Bucket(c, k))
    && (forall k :: k in remaining ==> FnsAt(rs, k) == [])
  }

  ghost predicate DelaysIssuedExcept<F>(c: map<int, seq<F>>, remaining: set<int>, rs: seq<Request<F>>) {
    forall i :: 0 <= i < |rs| ==> rs[i].delay in c && rs[i].delay !in remaining
  }

  /** Issuing one more bucket, as `perform`'s inner loop does, moves its offset out of `remaining`. */
  lemma IssueNextBucket<F>(c: map<int, seq<F>>, remaining: set<int>, rs: seq<Request<F>>, t: int)
    requires IssuedExcept(c, remaining, rs)
    requires t in remaining
    ensures IssuedExcept(c, remaining - {t}, rs + Issue(t, c[t]))
  {
    NextBucketFns(c, remaining, rs, t);
    NextBucketDelays(c, remaining, rs, t);
    NextBucketCount(c, remaining, rs, t);
  }

  lemma NextBucketFns<F>(c: map<int, seq<F>>, remaining: set<int>, rs: seq<Request<F>>, t: int)
    requires FnsIssuedExcept(c, remaining, rs)
    requires t in remaining && t in c
    ensures FnsIssuedExcept(c, remaining - {t}, rs + Issue(t, c[t]))
  {
    forall k ensures FnsAt(rs + Issue(t, c[t]), k) == FnsAt(rs, k) + if k == t then c[t] else [] {
      FnsAtIssue(rs, t, c[t], k);
    }
  }

  lemma NextBucketDelays<F>(c: map<int, seq<F>>, remaining: set<int>, rs: seq<Request<F>>, t: int)
    requires DelaysIssuedExcept(c, remaining, rs)
    requires t in remaining && t in c
    ensures DelaysIssuedExcept(c, remaining - {t}, rs + Issue(t, c[t]))
  {
    var after := rs + Issue(t, c[t]);
    forall i | 0 <= i < |after| ensures after[i].delay in c && after[i].delay !in remaining - {t} {
      if i >= |rs| {
        assert after[i] == Issue(t, c[t])[i - |rs|];
      }
    }
  }

  lemma NextBucketCount<F>(c: map<int, seq<F>>, remaining: set<int>, rs: seq<Request<F>>, t: int)
    requires |rs| == Count(c - remaining)
    requires t in remaining && t in c
    ensures |rs + Issue(t, c[t])| == Count(c - (remaining - {t}))
  {
    var doneNow := c - (remaining - {t});
    CountRemove(doneNow, t);
    assert doneNow - {t} == c - remaining;
  }

  /** A non-empty set of offsets has an element. */
  lemma NonEmptyHasElement(s: set<int>)
    requires s != {}
    ensures exists k :: k in s
  {
    if forall k :: k !in s {
      assert false;
    }
  }

  /** Some key of a non-empty map. */
  ghost function PickKey<F>(c: map<int, seq<F>>): (k: int)
    requires c.Keys != {}
    ensures k in c
  {
    NonEmptyHasElement(c.Keys);
    var k :| k in c.Keys; k
  }

  /** The number of functions stored over all buckets. */
  ghost function Count<F>(c: map<int, seq<F>>): nat
    decreases |c.Keys|
  {
    if c.Keys == {} then 0
    else
      var k := PickKey(c);
      assert (c - {k}).Keys == c.Keys - {k};
      |c[k]| + Count(c - {k})
  }

  /** Count does not depend on which bucket is taken first. */
  lemma {:induction false} CountRemove<F>(c: map<int, seq<F>>, k: int)
    requires k in c
    ensures Count(c) == |c[k]| + Count(c - {k})
    decreases |c.Keys|
  {
    var j := PickKey(c);
    if j != k {
      assert (c - {j}).Keys == c.Keys - {j};
      assert (c - {k}).Keys == c.Keys - {k};
      CountRemove(c - {j}, k);
      CountRemove(c - {k}, j);
      assert c - {j} - {k} == c - {k} - {j};
    }
  }

  /** Appending one function to a bucket stores one more function. */
  lemma CountInsert<F>(c: map<int, seq<F>>, k: int, f: F)
    ensures Count(Insert(c, k, f)) == Count(c) + 1
  {
    var r := Insert(c, k, f);
    CountRemove(r, k);
    if k in c {
      CountRemove(c, k);
      assert r - {k} == c - {k};
    } else {
      assert r - {k} == c;
    }
  }

  /** After any calls the cursor has moved by the sum of their steps; the default step never changes. */
  lemma {:induction false} ReplayTime<F>(s: State<F>, calls: seq<Call<F>>)
    ensures Replay(s, calls).duration == s.duration
    ensures Replay(s, calls).time == s.time + SumSteps(s.duration, calls)
    decreases |calls|
  {
    if calls != [] {
      ReplayTime(s, calls[..|calls| - 1]);
    }
  }

  /** No numeric argument of the call is negative. */
  predicate NonNegativeArguments<F>(c: Call<F>) {
    c.duration.Number? ==> c.duration.n >= 0
  }

  /**
   * The cursor never decreases along a run whose default step and numeric
   * arguments are non-negative: it is at least as large after the first `j`
   * calls as after the first `i`.
   */
  lemma {:induction false} TimeMonotone<F>(s: State<F>, calls: seq<Call<F>>, i: nat, j: nat)
    requires s.duration >= 0
    requires forall m :: 0 <= m < |calls| ==> NonNegativeArguments(calls[m])
    requires i <= j <= |calls|
    ensures Replay(s, calls[..i]).time <= Replay(s, calls[..j]).time
    decreases j
  {
    if i < j {
      TimeMonotone(s, calls, i, j - 1);
      var prefix := calls[..j];
      assert prefix[..j - 1] == calls[..j - 1];
      ReplayTime(s, calls[..j - 1]);
      assert NonNegativeArguments(calls[j - 1]);
    }
  }

  /** Without the sign condition the cursor can move backwards: nothing rejects a negative pause. */
  lemma NegativePauseRewinds<F>(s: State<F>, n: int)
    requires n < 0
    ensures Step(s, PauseCall(Number(n))).time == s.time + n
    ensures Step(s, PauseCall(Number(n))).time < s.time
  {
  }

  /**
   * Every bucket after the calls is the bucket before them followed by the
   * functions the accepted `add` calls placed at that offset, in call order.
   */
  lemma {:induction false} ReplayPlacement<F>(s: State<F>, calls: seq<Call<F>>, k: int)
    ensures Bucket(Replay(s, calls).choreography, k)
         == Bucket(s.choreography, k) + FnsAt(Placements(s.duration, s.time, calls), k)
    decreases |calls|
  {
    if calls != [] {
      var earlier := calls[..|calls| - 1];
      var last := calls[|calls| - 1];
      var before := Placements(s.duration, s.time, earlier);
      var a, b := Bucket(s.choreography, k), FnsAt(before, k);
      if last.AddCall? && last.fn.Function? {
        var req := Request(s.time + SumSteps(s.duration, earlier), last.fn.f);
        assert Placements(s.duration, s.time, calls) == before + [req];
        var r := Replay(s, earlier);
        var added := Insert(r.choreography, r.time, last.fn.f);
        assert Replay(s, calls).choreography == added;
        ReplayPlacement(s, earlier, k);
        ReplayTime(s, earlier);
        FnsAtAppend(before, req, k);
        if k == r.time {
          calc {
            Bucket(added, k);
            Bucket(r.choreography, k) + [last.fn.f];
            (a + b) + [last.fn.f];
            { assert (a + b) + [last.fn.f] == a + (b + [last.fn.f]); }
            a + (b + [last.fn.f]);
            a + FnsAt(before + [req], k);
          }
        } else {
          assert Bucket(added, k) == Bucket(r.choreography, k);
          assert FnsAt(before + [req], k) == b + [];
          assert b + [] == b;
        }
      } else {
        assert Placements(s.duration, s.time, calls) == before + [];
        assert before + [] == before;
        assert Replay(s, calls).choreography == Replay(s, earlier).choreography;
        ReplayPlacement(s, earlier, k);
      }
    }
  }

  /** The calls store exactly one function per accepted `add`. */
  lemma {:induction false} ReplayCount<F>(s: State<F>, calls: seq<Call<F>>)
    ensures Count(Replay(s, calls).choreography) == Count(s.choreography) + Added(calls)
    ensures |Placements(s.duration, s.time, calls)| == Added(calls)
    decreases |calls|
  {
    if calls != [] {
      var earlier := calls[..|calls| - 1];
      var last := calls[|calls| - 1];
      ReplayCount(s, earlier);
      ReplayTime(s, earlier);
      var r := Replay(s, earlier);
      if last.AddCall? && last.fn.Function? {
        CountInsert(r.choreography, r.time, last.fn.f);
      }
    }
  }

  /** A request sequence that issues every stored function once, at its bucket's offset, in bucket order. */
  ghost predicate IssuesAll<F>(c: map<int, seq<F>>, rs: seq<Request<F>>) {
    && (forall k :: FnsAt(rs, k) == Bucket(c, k))
    && |rs| == Count(c)
  }

  /**
   * Performing a freshly constructed Choreographer after the calls issues, at
   * each offset, exactly the functions the accepted `add` calls placed there,
   * in call order, and one request per accepted `add`.
   */
  lemma PerformAfterCalls<F>(d: Value<F>, calls: seq<Call<F>>, rs: seq<Request<F>>)
    requires ConstructorAccepts(d)
    requires IssuesAll(Replay(Initial(d), calls).choreography, rs)
    ensures forall k :: FnsAt(rs, k) == FnsAt(Placements(ConstructorDuration(d), 0, calls), k)
    ensures |rs| == Added(calls)
  {
    var s := Initial(d);
    forall k ensures FnsAt(rs, k) == FnsAt(Placements(ConstructorDuration(d), 0, calls), k) {
      ReplayPlacement(s, calls, k);
    }
    ReplayCount(s, calls);
    assert Count(s.choreography) == 0;
  }

  /**
   * The worked example of the source's documentation: with the default step of
   * 300, `add(fn1)`, `add(fn2, 0)`, `add(fn3)`, `add(fn4)` yield the buckets
   * 0: [fn1], 300: [fn2, fn3], 600: [fn4], and the cursor ends at 900.
   */
  lemma DocumentationExample<F>(fn1: F, fn2: F, fn3: F, fn4: F)
    ensures var r := Replay(Initial(Undefined), [AddCall(Function(fn1), Undefined), AddCall(Function(fn2), Number(0)),
                                                 AddCall(Function(fn3), Undefined), AddCall(Function(fn4), Undefined)]);
            && r.time == 900
            && r.choreography.Keys == {0, 300, 600}
            && r.choreography[0] == [fn1] && r.choreography[300] == [fn2, fn3] && r.choreography[600] == [fn4]
  {
    var c1, c2 := AddCall(Function(fn1), Undefined), AddCall(Function(fn2), Number(0));
    var c3, c4 := AddCall(Function(fn3), Undefined), AddCall(Function(fn4), Undefined);
    assert [c1, c2, c3, c4][..3] == [c1, c2, c3];
    assert [c1, c2, c3][..2] == [c1, c2];
    assert [c1, c2][..1] == [c1];
    assert [c1][..0] == [];
    var s1 := Step(Initial(Undefined), c1);
    var s2 := Step(s1, c2);
    var s3 := Step(s2, c3);
    var s4 := Step(s3, c4);
    assert Replay(Initial(Undefined), [c1]) == s1;
    assert Replay(Initial(Undefined), [c1, c2]) == s2;
    assert Replay(Initial(Undefined), [c1, c2, c3]) == s3;
    assert Replay(Initial(Undefined), [c1, c2, c3, c4]) == s4;
    assert s4.choreography[300] == Bucket(s2.choreography, 300) + [fn3] == [fn2] + [fn3];
  }

  /**
   * An explicit step moves only the registrations that follow: after `add(f1)`,
   * `add(f2, 150)`, `add(f3)` the function f3 sits at 450, not with f2 at 300.
   */
  lemma OwnStepMovesLaterCalls<F>(f1: F, f2: F, f3: F)
    ensures var r := Replay(Initial(Number(300)), [AddCall(Function(f1), Undefined), AddCall(Function(f2), Number(150)),
                                                   AddCall(Function(f3), Undefined)]);
            && r.time == 750
            && r.choreography.Keys == {0, 300, 450}
            && r.choreography[0] == [f1] && r.choreography[300] == [f2] && r.choreography[450] == [f3]
  {
    var c1, c2, c3 := AddCall(Function(f1), Undefined), AddCall(Function(f2), Number(150)), AddCall(Function(f3), Undefined);
    assert [c1, c2, c3][..2] == [c1, c2];
    assert [c1, c2][..1] == [c1];
    assert [c1][..0] == [];
    var s1 := Step(Initial(Number(300)), c1);
    var s2 := Step(s1, c2);
    var s3 := Step(s2, c3);
    assert Replay(Initial(Number(300)), [c1]) == s1;
    assert Replay(Initial(Number(300)), [c1, c2]) == s2;
    assert Replay(Initial(Number(300)), [c1, c2, c3]) == s3;
  }

  /**
   * `perform` on the documented map issues one request per function, four in
   * all, and fn2 and fn3 get two separate requests at 300, in that order,
   * rather than the single shared timeout the documentation draws.
   */
  lemma DocumentationExamplePerform<F>(fn1: F, fn2: F, fn3: F, fn4: F, rs: seq<Request<F>>)
    requires IssuesAll(Replay(Initial(Undefined), [AddCall(Function(fn1), Undefined), AddCall(Function(fn2), Number(0)),
                                                   AddCall(Function(fn3), Undefined), AddCall(Function(fn4), Undefined)]).choreography, rs)
    ensures |rs| == 4
    ensures FnsAt(rs, 0) == [fn1] && FnsAt(rs, 300) == [fn2, fn3] && FnsAt(rs, 600) == [fn4]
  {
    var c1, c2 := AddCall(Function(fn1), Undefined), AddCall(Function(fn2), Number(0));
    var c3, c4 := AddCall(Function(fn3), Undefined), AddCall(Function(fn4), Undefined);
    var calls := [c1, c2, c3, c4];
    assert calls[..3] == [c1, c2, c3];
    assert [c1, c2, c3][..2] == [c1, c2];
    assert [c1, c2][..1] == [c1];
    assert [c1][..0] == [];
    assert Added([c1]) == 1;
    assert Added([c1, c2]) == 2;
    assert Added([c1, c2, c3]) == 3;
    assert Added(calls) == 4;
    DocumentationExample(fn1, fn2, fn3, fn4);
    PerformAfterCalls(Undefined, calls, rs);
    var c := Replay(Initial(Undefined), calls).choreography;
    assert FnsAt(rs, 300) == Bucket(c, 300);
  }
}
