/**
 * Pipeline.php: middleware as an onion. `then` folds the reversed pipes
 * into nested closures around the destination; each layer receives the
 * value and a `next` closure, may act before and after calling it, may
 * answer without calling it, or may throw.
 */
module Pipelines {
  import opened Php

  /** What one middleware does in its `handle($passable, $next)`. */
  datatype Behaviour<!P, !R> =
    | Around(tag: string, forward: P -> P, after: R -> R)  // calls `next(forward(x))` and maps its result
    | ShortCircuit(tag: string, answer: P -> R)            // returns without calling `next`
    | Raise(tag: string, error: Throwable)                  // throws without calling `next`

  /** A pipe is a class name, made by the container when its layer runs, or
      an object. */
  datatype Pipe<!P, !R> = Named(id: string) | Direct(behaviour: Behaviour<P, R>)

  /** What can be observed while the onion runs. */
  datatype Event = Resolved(id: string) | Entered(tag: string) | Left(tag: string) | Reached

  /** A result together with the events that led to it. */
  type Traced<R> = (Outcome<R>, seq<Event>)

  /** The behaviour a pipe has when its layer runs. */
  function Behave<P, R>(pipe: Pipe<P, R>, resolve: string -> Outcome<Behaviour<P, R>>): Outcome<Behaviour<P, R>>
  {
    match pipe
    case Named(id) => resolve(id)
    case Direct(b) => Done(b)
  }

  /** The event of resolving the pipe, if it is a name. */
  function Pre<P, R>(pipe: Pipe<P, R>): seq<Event>
  {
    match pipe
    case Named(id) => [Resolved(id)]
    case Direct(_) => []
  }

  /** One layer: resolve the pipe, then run its behaviour around `next`.
      Anything thrown by `next` passes through unchanged and skips the
      layer's after-part. */
  function Layer<P, R>(pipe: Pipe<P, R>, resolve: string -> Outcome<Behaviour<P, R>>,
                       next: P -> Traced<R>, x: P): Traced<R>
  {
    match Behave(pipe, resolve)
    case Thrown(e) => (Thrown(e), Pre(pipe))
    case Done(b) =>
      match b
      case Around(tag, forward, after) =>
        var inner := next(forward(x));
        (match inner.0
         case Done(v) => (Done(after(v)), Pre(pipe) + [Entered(tag)] + inner.1 + [Left(tag)])
         case Thrown(e) => (Thrown(e), Pre(pipe) + [Entered(tag)] + inner.1))
      case ShortCircuit(tag, answer) => (Done(answer(x)), Pre(pipe) + [Entered(tag)])
      case Raise(tag, e) => (Thrown(e), Pre(pipe) + [Entered(tag)])
  }

  /** The reference meaning of a pipeline: the first pipe is the outermost
      layer, the destination is reached in the middle. */
  function Run<P, R>(pipes: seq<Pipe<P, R>>, resolve: string -> Outcome<Behaviour<P, R>>,
                     dest: P -> Outcome<R>, x: P): Traced<R>
    decreases |pipes|
  {
    if pipes == [] then (dest(x), [Reached])
    else Layer(pipes[0], resolve, y => Run(pipes[1..], resolve, dest, y), x)
  }

  // ---------------------------------------------------------------------
  // The construction `then` uses: array_reduce over the reversed pipes

  function Arrive<P, R>(dest: P -> Outcome<R>): P -> Traced<R>
  {
    x => (dest(x), [Reached])
  }

  /** `carry()`: wraps the stack built so far in one more layer. */
  function Carry<P, R>(resolve: string -> Outcome<Behaviour<P, R>>, stack: P -> Traced<R>, pipe: Pipe<P, R>): P -> Traced<R>
  {
    x => Layer(pipe, resolve, stack, x)
  }

  /** `array_reduce($pipes, $carry, $initial)`: a left fold. */
  function Reduce<P, R>(pipes: seq<Pipe<P, R>>, resolve: string -> Outcome<Behaviour<P, R>>, acc: P -> Traced<R>): P -> Traced<R>
    decreases |pipes|
  {
    if pipes == [] then acc else Reduce(pipes[1..], resolve, Carry(resolve, acc, pipes[0]))
  }

  function Reverse<T>(s: seq<T>): (r: seq<T>)
    ensures |r| == |s|
  {
    if s == [] then [] else Reverse(s[1..]) + [s[0]]
  }

  /** The closure `then` calls with the passable. */
  function Compose<P, R>(pipes: seq<Pipe<P, R>>, resolve: string -> Outcome<Behaviour<P, R>>, dest: P -> Outcome<R>): P -> Traced<R>
  {
    Reduce(Reverse(pipes), resolve, Arrive(dest))
  }

  lemma {:induction false} ReduceSnoc<P, R>(front: seq<Pipe<P, R>>, last: Pipe<P, R>,
                                             resolve: string -> Outcome<Behaviour<P, R>>, acc: P -> Traced<R>)
    ensures Reduce(front + [last], resolve, acc) == Carry(resolve, Reduce(front, resolve, acc), last)
    decreases |front|
  {
    if front == [] {
      assert front + [last] == [last];
      assert [last][1..] == [];
    } else {
      assert (front + [last])[1..] == front[1..] + [last];
      ReduceSnoc(front[1..], last, resolve, Carry(resolve, acc, front[0]));
    }
  }

  /** A layer only looks at `next` where it calls it. */
  lemma LayerCongruence<P, R>(pipe: Pipe<P, R>, resolve: string -> Outcome<Behaviour<P, R>>,
                              n1: P -> Traced<R>, n2: P -> Traced<R>, x: P)
    requires var o := Behave(pipe, resolve);
      o.Done? && o.value.Around? ==> n1(o.value.forward(x)) == n2(o.value.forward(x))
    ensures Layer(pipe, resolve, n1, x) == Layer(pipe, resolve, n2, x)
  {
  }

  /** Folding the reversed pipes builds exactly the onion `Run` describes:
      the first pipe is the outermost layer. */
  lemma {:induction false} ComposeIsRun<P, R>(pipes: seq<Pipe<P, R>>, resolve: string -> Outcome<Behaviour<P, R>>,
                                               dest: P -> Outcome<R>, x: P)
    ensures Compose(pipes, resolve, dest)(x) == Run(pipes, resolve, dest, x)
    decreases |pipes|
  {
    if pipes != [] {
      var inner := Compose(pipes[1..], resolve, dest);
      ReduceSnoc(Reverse(pipes[1..]), pipes[0], resolve, Arrive(dest));
      assert Compose(pipes, resolve, dest) == Carry(resolve, inner, pipes[0]);
      var o := Behave(pipes[0], resolve);
      if o.Done? && o.value.Around? {
        ComposeIsRun(pipes[1..], resolve, dest, o.value.forward(x));
      }
      LayerCongruence(pipes[0], resolve, inner, y => Run(pipes[1..], resolve, dest, y), x);
    }
  }

  // ---------------------------------------------------------------------
  // Layers that call `next`

  /** Every pipe resolves to a middleware that calls `next`. */
  predicate AllAround<P, R>(pipes: seq<Pipe<P, R>>, resolve: string -> Outcome<Behaviour<P, R>>)
  {
    forall i :: 0 <= i < |pipes| ==> Behave(pipes[i], resolve).Done? && Behave(pipes[i], resolve).value.Around?
  }

  /** The value the innermost layer passes on. */
  function Forward<P, R>(pipes: seq<Pipe<P, R>>, resolve: string -> Outcome<Behaviour<P, R>>, x: P): P
    requires AllAround(pipes, resolve)
    decreases |pipes|
  {
    if pipes == [] then x
    else Forward(pipes[1..], resolve, Behave(pipes[0], resolve).value.forward(x))
  }

  /** The after-parts applied from the innermost layer outwards. */
  function Wrap<P, R>(pipes: seq<Pipe<P, R>>, resolve: string -> Outcome<Behaviour<P, R>>, v: R): R
    requires AllAround(pipes, resolve)
    decreases |pipes|
  {
    if pipes == [] then v
    else Behave(pipes[0], resolve).value.after(Wrap(pipes[1..], resolve, v))
  }

  /** The before-events, outermost layer first. */
  function Befores<P, R>(pipes: seq<Pipe<P, R>>, resolve: string -> Outcome<Behaviour<P, R>>): seq<Event>
    requires AllAround(pipes, resolve)
    decreases |pipes|
  {
    if pipes == [] then []
    else Pre(pipes[0]) + [Entered(Behave(pipes[0], resolve).value.tag)] + Befores(pipes[1..], resolve)
  }

  /** The after-events, innermost layer first. */
  function Afters<P, R>(pipes: seq<Pipe<P, R>>, resolve: string -> Outcome<Behaviour<P, R>>): seq<Event>
    requires AllAround(pipes, resolve)
    decreases |pipes|
  {
    if pipes == [] then []
    else Afters(pipes[1..], resolve) + [Left(Behave(pipes[0], resolve).value.tag)]
  }

  /** What the layers of `pipes` make of the result of what runs inside
      them. */
  function Unwind<P, R>(pipes: seq<Pipe<P, R>>, resolve: string -> Outcome<Behaviour<P, R>>, inner: Traced<R>): Traced<R>
    requires AllAround(pipes, resolve)
    decreases |pipes|
  {
    if pipes == [] then inner
    else
      var b := Behave(pipes[0], resolve).value;
      var t := Unwind(pipes[1..], resolve, inner);
      match t.0
      case Done(v) => (Done(b.after(v)), Pre(pipes[0]) + [Entered(b.tag)] + t.1 + [Left(b.tag)])
      case Thrown(e) => (Thrown(e), Pre(pipes[0]) + [Entered(b.tag)] + t.1)
  }

  /** Layers that call `next` can be peeled off the front: the rest of the
      pipeline runs on the value they pass on, and they wrap its result. */
  lemma {:induction false} RunPrefix<P, R>(pipes: seq<Pipe<P, R>>, resolve: string -> Outcome<Behaviour<P, R>>,
                                            dest: P -> Outcome<R>, x: P, k: nat)
    requires k <= |pipes| && AllAround(pipes[..k], resolve)
    ensures Run(pipes, resolve, dest, x)
         == Unwind(pipes[..k], resolve, Run(pipes[k..], resolve, dest, Forward(pipes[..k], resolve, x)))
    decreases k
  {
    if k == 0 {
      assert pipes[k..] == pipes;
    } else {
      var b := Behave(pipes[0], resolve).value;
      assert pipes[..k][0] == pipes[0];
      assert pipes[1..][..k - 1] == pipes[..k][1..];
      assert pipes[1..][k - 1..] == pipes[k..];
      assert AllAround(pipes[1..][..k - 1], resolve) by {
        assert forall i :: 0 <= i < k - 1 ==> pipes[1..][..k - 1][i] == pipes[..k][1..][i];
      }
      RunPrefix(pipes[1..], resolve, dest, b.forward(x), k - 1);
    }
  }

  lemma {:induction false} UnwindDone<P, R>(pipes: seq<Pipe<P, R>>, resolve: string -> Outcome<Behaviour<P, R>>, v: R, t: seq<Event>)
    requires AllAround(pipes, resolve)
    ensures Unwind(pipes, resolve, (Done(v), t)) == (Done(Wrap(pipes, resolve, v)), Befores(pipes, resolve) + t + Afters(pipes, resolve))
    decreases |pipes|
  {
    if pipes != [] {
      assert AllAround(pipes[1..], resolve) by {
        forall i | 0 <= i < |pipes| - 1 ensures pipes[1..][i] == pipes[i + 1] { }
      }
      UnwindDone(pipes[1..], resolve, v, t);
      var b := Behave(pipes[0], resolve).value;
      var head := Pre(pipes[0]) + [Entered(b.tag)];
      var inner := Befores(pipes[1..], resolve) + t + Afters(pipes[1..], resolve);
      assert Befores(pipes, resolve) == head + Befores(pipes[1..], resolve);
      assert Afters(pipes, resolve) == Afters(pipes[1..], resolve) + [Left(b.tag)];
      assert head + inner + [Left(b.tag)] == Befores(pipes, resolve) + t + Afters(pipes, resolve);
    } else {
      assert Befores(pipes, resolve) + t + Afters(pipes, resolve) == t;
    }
  }

  lemma {:induction false} UnwindThrown<P, R>(pipes: seq<Pipe<P, R>>, resolve: string -> Outcome<Behaviour<P, R>>, e: Throwable, t: seq<Event>)
    requires AllAround(pipes, resolve)
    ensures Unwind(pipes, resolve, (Thrown(e), t)) == (Thrown(e), Befores(pipes, resolve) + t)
    decreases |pipes|
  {
    if pipes != [] {
      assert AllAround(pipes[1..], resolve) by {
        forall i | 0 <= i < |pipes| - 1 ensures pipes[1..][i] == pipes[i + 1] { }
      }
      UnwindThrown(pipes[1..], resolve, e, t);
      var b := Behave(pipes[0], resolve).value;
      var head := Pre(pipes[0]) + [Entered(b.tag)];
      assert Befores(pipes, resolve) == head + Befores(pipes[1..], resolve);
      assert head + (Befores(pipes[1..], resolve) + t) == Befores(pipes, resolve) + t;
    } else {
      assert Befores(pipes, resolve) + t == t;
    }
  }

  /** The onion: when every layer calls `next`, the destination receives the
      value passed down through all layers in order, the before-parts run
      outermost first, the after-parts innermost first, and a throw from the
      destination comes out unchanged with no after-part run. */
  lemma Onion<P, R>(pipes: seq<Pipe<P, R>>, resolve: string -> Outcome<Behaviour<P, R>>, dest: P -> Outcome<R>, x: P)
    requires AllAround(pipes, resolve)
    ensures var o := dest(Forward(pipes, resolve, x));
      o.Done? ==> Run(pipes, resolve, dest, x)
                  == (Done(Wrap(pipes, resolve, o.value)), Befores(pipes, resolve) + [Reached] + Afters(pipes, resolve))
    ensures var o := dest(Forward(pipes, resolve, x));
      o.Thrown? ==> Run(pipes, resolve, dest, x) == (Thrown(o.error), Befores(pipes, resolve) + [Reached])
  {
    assert pipes[..|pipes|] == pipes;
    assert pipes[|pipes|..] == [];
    RunPrefix(pipes, resolve, dest, x, |pipes|);
    var y := Forward(pipes, resolve, x);
    match dest(y)
    case Done(v) => UnwindDone(pipes, resolve, v, [Reached]);
    case Thrown(e) => UnwindThrown(pipes, resolve, e, [Reached]);
  }

  /** What a layer that does not call `next` produces on its own. */
  function Stopped<P, R>(pipe: Pipe<P, R>, resolve: string -> Outcome<Behaviour<P, R>>, y: P): Traced<R>
    requires !(Behave(pipe, resolve).Done? && Behave(pipe, resolve).value.Around?)
  {
    match Behave(pipe, resolve)
    case Thrown(e) => (Thrown(e), Pre(pipe))
    case Done(b) =>
      if b.ShortCircuit? then (Done(b.answer(y)), Pre(pipe) + [Entered(b.tag)])
      else (Thrown(b.error), Pre(pipe) + [Entered(b.tag)])
  }

  lemma RunHeadStops<P, R>(ps: seq<Pipe<P, R>>, resolve: string -> Outcome<Behaviour<P, R>>, dest: P -> Outcome<R>, y: P)
    requires ps != [] && !(Behave(ps[0], resolve).Done? && Behave(ps[0], resolve).value.Around?)
    ensures Run(ps, resolve, dest, y) == Stopped(ps[0], resolve, y)
  {
  }

  /** A layer that does not call `next` ends the descent: the layers inside
      it are never resolved or run and the destination is never reached;
      the outer layers see its result as if it came from `next`. */
  lemma {:induction false} StopAt<P, R>(pipes: seq<Pipe<P, R>>, resolve: string -> Outcome<Behaviour<P, R>>, dest: P -> Outcome<R>, x: P, k: nat)
    requires k < |pipes| && AllAround(pipes[..k], resolve)
    requires !(Behave(pipes[k], resolve).Done? && Behave(pipes[k], resolve).value.Around?)
    ensures Run(pipes, resolve, dest, x) == Unwind(pipes[..k], resolve, Stopped(pipes[k], resolve, Forward(pipes[..k], resolve, x)))
  {
    RunPrefix(pipes, resolve, dest, x, k);
    var rest := pipes[k..];
    assert rest[0] == pipes[k];
    RunHeadStops(rest, resolve, dest, Forward(pipes[..k], resolve, x));
  }

  /** A layer that answers without calling `next`: its answer is wrapped by
      the after-parts of the outer layers, and nothing inside it runs. */
  lemma ShortCircuitAt<P, R>(pipes: seq<Pipe<P, R>>, resolve: string -> Outcome<Behaviour<P, R>>, dest: P -> Outcome<R>, x: P, k: nat)
    requires k < |pipes| && AllAround(pipes[..k], resolve)
    requires Behave(pipes[k], resolve).Done? && Behave(pipes[k], resolve).value.ShortCircuit?
    ensures var b := Behave(pipes[k], resolve).value;
      var y := Forward(pipes[..k], resolve, x);
      Run(pipes, resolve, dest, x)
      == (Done(Wrap(pipes[..k], resolve, b.answer(y))),
          Befores(pipes[..k], resolve) + Pre(pipes[k]) + [Entered(b.tag)] + Afters(pipes[..k], resolve))
  {
    var b := Behave(pipes[k], resolve).value;
    var y := Forward(pipes[..k], resolve, x);
    StopAt(pipes, resolve, dest, x, k);
    UnwindDone(pipes[..k], resolve, b.answer(y), Pre(pipes[k]) + [Entered(b.tag)]);
    var bs := Befores(pipes[..k], resolve);
    assert bs + (Pre(pipes[k]) + [Entered(b.tag)]) == bs + Pre(pipes[k]) + [Entered(b.tag)];
  }

  /** A layer that throws, or a pipe the container cannot make: the
      exception leaves the pipeline unchanged, no after-part runs, and
      nothing inside the layer runs. */
  lemma ThrowAt<P, R>(pipes: seq<Pipe<P, R>>, resolve: string -> Outcome<Behaviour<P, R>>, dest: P -> Outcome<R>, x: P, k: nat)
    requires k < |pipes| && AllAround(pipes[..k], resolve)
    requires Behave(pipes[k], resolve).Thrown? || Behave(pipes[k], resolve).value.Raise?
    ensures var o := Behave(pipes[k], resolve);
      Run(pipes, resolve, dest, x)
      == if o.Thrown? then (Thrown(o.error), Befores(pipes[..k], resolve) + Pre(pipes[k]))
         else (Thrown(o.value.error), Befores(pipes[..k], resolve) + Pre(pipes[k]) + [Entered(o.value.tag)])
  {
    var o := Behave(pipes[k], resolve);
    StopAt(pipes, resolve, dest, x, k);
    var bs := Befores(pipes[..k], resolve);
    if o.Thrown? {
      UnwindThrown(pipes[..k], resolve, o.error, Pre(pipes[k]));
    } else {
      UnwindThrown(pipes[..k], resolve, o.value.error, Pre(pipes[k]) + [Entered(o.value.tag)]);
      assert bs + (Pre(pipes[k]) + [Entered(o.value.tag)]) == bs + Pre(pipes[k]) + [Entered(o.value.tag)];
    }
  }

  // ---------------------------------------------------------------------
  // The pipeline object

  /** The error PHP raises when `then` reads a passable never sent. */
  function Uninitialised(): Throwable
  {
    NewError("Typed property Alphavel\\Core\\Pipeline::$passable must not be accessed before initialization")
  }

  class Pipeline<P, R> {
    var passable: Option<P>
    var pipes: seq<Pipe<P, R>>

    constructor()
      ensures passable == None && pipes == []
    {
      passable := None;
      pipes := [];
    }

    method Send(x: P) returns (self: Pipeline<P, R>)
      modifies this
      ensures self == this && passable == Some(x) && pipes == old(pipes)
    {
      passable := Some(x);
      self := this;
    }

    /** `through($pipes)` replaces the list. */
    method Through(ps: seq<Pipe<P, R>>) returns (self: Pipeline<P, R>)
      modifies this
      ensures self == this && pipes == ps && passable == old(passable)
    {
      pipes := ps;
      self := this;
    }

    /** `then($destination)`: builds the onion by folding the reversed pipes
        and calls it with the passable. */
    method Then(resolve: string -> Outcome<Behaviour<P, R>>, dest: P -> Outcome<R>) returns (r: Traced<R>)
      ensures passable.None? ==> r == (Thrown(Uninitialised()), [])
      ensures passable.Some? ==> r == Run(pipes, resolve, dest, passable.value)
    {
      match passable
      case None =>
        r := (Thrown(Uninitialised()), []);
      case Some(x) =>
        var stack := Compose(pipes, resolve, dest);
        ComposeIsRun(pipes, resolve, dest, x);
        r := stack(x);
    }
  }
}
