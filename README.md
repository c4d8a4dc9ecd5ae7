# Choreographer in Dafny

This project models `Choreographer`, a small JavaScript helper for sequencing animations. It keeps three fields:

- `time`, a cursor in milliseconds;
- `duration`, the default step;
- `choreography`, a map from offsets to the lists of callbacks scheduled there.

It has three operations:

- `add(fn, duration)` appends `fn` to the bucket at the cursor and then moves the cursor on;
- `pause(duration)` only moves the cursor;
- `perform()` asks `setTimeout` to run every stored callback, using its bucket's offset as the delay.

The project has three modules:

- `Values` (values.dfy) models the JavaScript argument values. An argument is a `Value<F>`: `Undefined`, an integral `Number`, `NaN`, a `Function` or any `Other` value with its truthiness. The module states the source's argument checks literally, as truthiness and `typeof` tests. Each normalisation function's contract then says in plain terms which argument wins and when the default does.
- `Schedule` (schedule.dfy) is a value-level model of the object's state. `Step` is one call and `Replay` is a sequence of calls. Lemmas prove the cursor's sum law, monotonicity under non-negative arguments, where each callback lands, and how many are stored. A reference `Placements` lists every accepted `add` with its offset, defined from prefix sums of the steps and independent of `Replay`. The `ReplayPlacement` lemma proves the two agree.
- `Choreography` (choreographer.dfy) holds the class `Choreographer`, with the three fields updated in place by `Add` and `Pause`. Each method's contract ties the new fields to the old ones, and to `Step`. `Perform` loops over the keys and, inside that loop, over each bucket, exactly as the source does. It returns the `setTimeout` requests as a sequence of `Request(delay, fn)` instead of issuing them.

Callbacks are opaque: the class is generic in their type `F`.

JavaScript's `for...in` promises no order across buckets here. So `Perform` takes the next key with a nondeterministic choice, and its contract speaks only of order within a bucket: for every offset `k`, the functions requested with delay `k` are exactly bucket `k`, in order. It also says there is one request per stored function. `Perform` changes no field, so a second call issues the same requests at every offset again, in the same order within each bucket. The sequence as a whole may differ, since the buckets may come in another order.

Some behaviour of the code is easy to misread. The model follows the code in each case.

- Only the calls that follow an explicit step are moved by it. With a default of 300, `add(f1)`, `add(f2, 150)`, `add(f3)` puts `f1` at 0, `f2` at 300 and `f3` at 450, and leaves the cursor at 750 (choreographer.js:83-93, `OwnStepMovesLaterCalls`).
- The cursor can move backwards. No code rejects a negative numeric duration (choreographer.js:89-93, 110-114), and the constructor keeps a negative argument such as -5 as the default step (choreographer.js:49). The cursor is monotone only when the default and every numeric argument are non-negative (`TimeMonotone`, `NegativePauseRewinds`).
- `add` falls back to the default for `NaN`, although `NaN` has type number. Only a non-NaN number, 0 included, is honoured (choreographer.js:89).
- The header comment of choreographer.js disagrees with its code about `perform`. The comment (choreographer.js:11-13 and 25-30) says there is one timeout per time in the map, running that time's functions in sequence; for its example map it draws three timeouts, with `fn2(); fn3();` sharing the one at 300. The code (choreographer.js:127-129) calls `setTimeout(fn, time)` once per function instead. The example map therefore gets four requests, two of them at delay 300 (`DocumentationExamplePerform`). Each callback runs in its own timeout, so `fn3` still runs if `fn2` throws.

## Model

| member | source | states |
|---|---|---|
| `Values.ConstructorDuration` | choreographer.js:48-49 | the falsy-or-default rule: a nonzero number is kept; missing, 0, NaN and falsy non-numbers give 300 |
| `Values.AddRejects` | choreographer.js:77-79 | `add` throws exactly when `fn` is not a function (missing, null, a number, any other value) |
| `Values.AddStep` | choreographer.js:89-93 | `add` advances by its argument whenever it is a non-NaN number, 0 included, and by the default otherwise |
| `Values.PauseStep` | choreographer.js:110-114 | `pause` advances by its argument only when it is a nonzero, non-NaN number, and by the default otherwise (0 included) |
| `Values.AddAndPauseDifferOnlyAtZero` | choreographer.js:89-114 | the two step rules give different steps exactly for an explicit 0 with a nonzero default |
| `Schedule.Initial` | choreographer.js:48-52 | a new object has cursor 0, no buckets, and the constructor's default step |
| `Schedule.Insert` | choreographer.js:81-87 | appending `fn` at an offset extends that bucket by `fn` at its end (creating `[fn]` if absent), adds only that key, and leaves every other bucket unchanged |
| `Schedule.Step` | choreographer.js:75-116 | one call keeps the default step and moves the cursor by the call's effective step; a pause or a rejected add leaves the buckets unchanged |
| `Schedule.ReplayTime` | choreographer.js:89-114 | after any sequence of calls the default is unchanged and the cursor has moved by exactly the sum of the effective steps |
| `Schedule.TimeMonotone` | choreographer.js:89-114 | with a non-negative default and non-negative numeric arguments, the cursor after a longer prefix of calls is never smaller |
| `Schedule.NegativePauseRewinds` | choreographer.js:108-114 | `pause(n)` for any negative number `n` moves the cursor back by exactly `-n`; nothing rejects it |
| `Schedule.ReplayPlacement` | choreographer.js:81-93 | every bucket after the calls is its old content followed by the functions of the accepted adds placed at that offset, in call order; each add is placed at the offset reached by the earlier calls, never including its own step |
| `Schedule.CountInsert` | choreographer.js:83-87 | one accepted add stores exactly one more function in total |
| `Schedule.ReplayCount` | choreographer.js:75-95 | the number of stored functions grows by exactly the number of accepted adds, which is also the number of placements |
| `Schedule.Issue` | choreographer.js:127-129 | the requests for one bucket are its functions in order, each with the bucket's offset as delay |
| `Schedule.FnsAtIssue` | choreographer.js:125-129 | issuing one bucket adds exactly that bucket's functions at its offset and no request at any other offset |
| `Schedule.IssueNextBucket` | choreographer.js:124-131 | each round of the outer loop keeps the invariant: visited buckets fully issued in order, none issued for unvisited ones, one request per visited function |
| `Schedule.PerformAfterCalls` | choreographer.js:124-131 | performing a fresh object after any calls requests, at each offset, exactly the functions the accepted adds placed there, in call order, one request per accepted add |
| `Schedule.DocumentationExample` | choreographer.js:17-23 | with default 300, `add(fn1)`, `add(fn2, 0)`, `add(fn3)`, `add(fn4)` yield buckets 0: [fn1], 300: [fn2, fn3], 600: [fn4] |
| `Schedule.DocumentationExamplePerform` | choreographer.js:25-30 | any request sequence meeting `perform`'s contract on the documented map has four requests: fn1 at 0, fn2 then fn3 at 300, and fn4 at 600, one request per function rather than one per time |
| `Schedule.OwnStepMovesLaterCalls` | choreographer.js:81-93 | after `add(f1)`, `add(f2, 150)`, `add(f3)` with default 300 the buckets are 0: [f1], 300: [f2], 450: [f3] and the cursor is 750 |
| `Choreography.Choreographer.constructor` | choreographer.js:48-52 | fields start as default step (the argument if truthy, else 300), cursor 0, empty map |
| `Choreography.Choreographer.Add` | choreographer.js:75-95 | throws with the source's message and changes nothing when `fn` is not a function; otherwise appends `fn` to the bucket at the old cursor and advances the cursor by the add step; the default never changes |
| `Choreography.Choreographer.Pause` | choreographer.js:108-116 | advances the cursor by the pause step; buckets and default unchanged |
| `Choreography.Choreographer.Perform` | choreographer.js:124-131 | the requests at each offset are exactly that bucket, in order; every request's delay is a key; one request per stored function; no field changes |

## Left out

- gulpfile.js is not part of this model: it is build and minification plumbing with no logic of its own.
- `setTimeout` itself is left out: `Perform` returns the requests, and their firing, timer accuracy and event-loop order belong to the host. The host's conversion of a string key to a number, and its clamping of negative delays, are not modelled either.
- Order across buckets is left out. `for...in` gives no order the code relies on, so `Perform` picks keys nondeterministically and promises only order within a bucket.
- What the callbacks do and what they throw is left out: they are opaque values of type `F`.
- Numbers are unbounded integers. JavaScript numbers are doubles, so `this.time += duration` rounds once the cursor passes 2^53; that rounding is not modelled. Fractional milliseconds, `Infinity` and `-0` are not modelled either, and neither are non-integral keys converted to strings.
- Values.ConstructorDuration: requires `ConstructorAccepts`, for the reason given for the constructor below.
- Schedule.Initial: requires `ConstructorAccepts`, for the reason given for the constructor below.
- Choreography.Choreographer.constructor: requires `ConstructorAccepts`, because `duration || 300` keeps a truthy argument that is not a number (a string, an object, a function). The code would then store a non-number as the default, and later `+=` would concatenate strings.
- The wrapper that assigns `context.Choreographer` (choreographer.js:1 and 133) and the prototype set-up are left out: they only export the constructor.
- The JavaScript `Error` thrown by `add` is modelled as the returned `Outcome` value `Thrown(message)`.
