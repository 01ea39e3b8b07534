/// The composition of pipeline stages: `Pipeline.sink` and
/// `PipelineWithSink.handle`. A stage maps what it is handed to what its
/// `handle` returns; `None` is Python's `None`, which is what a method
/// without a `return` statement gives back.
module Pipeline {

  datatype Option<T> = None | Some(value: T)

  /**
   * A pipeline step: a basic stage with its own `handle`, or a
   * `PipelineWithSink` pairing a pipeline with the sink it feeds.
   */
  datatype Stage<!V> =
    | Basic(handle: Option<V> -> Option<V>)
    | WithSink(pipeline: Stage<V>, sink: Stage<V>)

  /**
   * The result of calling `p.sink(k)`: the new stage, or the error raised
   * when `p` is itself a `PipelineWithSink`, whose constructor stores the
   * sink in an attribute also named `sink` that hides the method, so the
   * call lands on the stored stage, which is not callable.
   */
  datatype Built<!V> = Built(stage: Stage<V>) | NotCallable

  /** `stage.handle(input)`: a stage with a sink runs both and returns nothing. */
  function Handle<V>(stage: Stage<V>, input: Option<V>): Option<V>
  {
    match stage
    case Basic(h) => h(input)
    case WithSink(p, k) => None
  }

  /**
   * The inputs that the basic stages inside `stage` are handed during
   * `stage.handle(input)`, in call order: a sink gets exactly what its
   * pipeline returned.
   */
  function Received<V>(stage: Stage<V>, input: Option<V>): (r: seq<Option<V>>)
    ensures |r| > 0 && r[0] == input
  {
    match stage
    case Basic(_) => [input]
    case WithSink(p, k) => Received(p, input) + Received(k, Handle(p, input))
  }

  /** `p.sink(k)`: it fails exactly when `p` already has a sink. */
  function Sink<V>(p: Stage<V>, k: Stage<V>): (r: Built<V>)
    ensures r.Built? <==> p.Basic?
  {
    match p
    case Basic(_) => Built(WithSink(p, k))
    case WithSink(_, _) => NotCallable
  }

  /**
   * The stage built by `p.sink(k)` returns nothing, and its sink is handed
   * what `p.handle` returned.
   */
  lemma SinkFeedsSink<V>(p: Stage<V>, k: Stage<V>, input: Option<V>)
    requires p.Basic?
    ensures Sink(p, k).Built?
    ensures Handle(Sink(p, k).stage, input) == None
    ensures Received(Sink(p, k).stage, input) == [input] + Received(k, p.handle(input))
  {
  }

  /**
   * The stages of `stages` composed from the right, `s0.sink(s1.sink(...))`:
   * each stage's output is handed to the rest.
   */
  function Chain<V>(stages: seq<Stage<V>>): Stage<V>
    requires |stages| > 0
  {
    if |stages| == 1 then stages[0] else WithSink(stages[0], Chain(stages[1..]))
  }

  /**
   * What a list of basic stages is handed when each one's output goes to the
   * next: the first one gets `input`, each later one its predecessor's result.
   */
  function Feed<V>(stages: seq<Stage<V>>, input: Option<V>): (r: seq<Option<V>>)
    requires forall j :: 0 <= j < |stages| ==> stages[j].Basic?
    ensures |r| == |stages|
  {
    if stages == [] then [] else [input] + Feed(stages[1..], stages[0].handle(input))
  }

  /** Building the right-nested chain with `sink` never hits the hidden method. */
  lemma {:induction false} ChainBuildable<V>(stages: seq<Stage<V>>)
    requires |stages| > 1
    requires forall j :: 0 <= j < |stages| ==> stages[j].Basic?
    ensures Sink(stages[0], Chain(stages[1..])) == Built(Chain(stages))
  {
  }

  /**
   * A right-nested chain of basic stages hands each stage the previous
   * stage's output, and returns nothing once it has a sink.
   */
  lemma {:induction false} ChainFeedsForward<V>(stages: seq<Stage<V>>, input: Option<V>)
    requires |stages| > 0
    requires forall j :: 0 <= j < |stages| ==> stages[j].Basic?
    ensures Received(Chain(stages), input) == Feed(stages, input)
    ensures |stages| > 1 ==> Handle(Chain(stages), input) == None
    decreases |stages|
  {
    if |stages| == 1 {
      assert stages[1..] == [];
    } else {
      ChainFeedsForward(stages[1..], stages[0].handle(input));
    }
  }

  /**
   * Nesting to the left, `PipelineWithSink(PipelineWithSink(p, k), k2)`,
   * hands the outer sink `None`: the inner `handle` returns nothing.
   */
  lemma LeftNestedSinkGetsNone<V>(p: Stage<V>, k: Stage<V>, k2: Stage<V>, input: Option<V>)
    ensures Received(WithSink(WithSink(p, k), k2), input) ==
            Received(p, input) + Received(k, Handle(p, input)) + Received(k2, None)
  {
  }
}
