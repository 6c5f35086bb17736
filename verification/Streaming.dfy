/** The streaming pipeline: samples are cut into overlapping windows, their features into overlapping
    timesteps, and the timesteps into batches for the acoustic model. */
module Streaming {
  import opened Basics
  import opened Windows

  /** Sizes of the model, and the parts of it that are opaque here: feature computation, acoustic model
      with recurrent state S, and decoder with state D. */
  datatype Model<!S, !D> = Model(
    winLen: nat, winStep: nat, nFeatures: nat, nContext: nat, nSteps: nat,
    computeMfcc: seq<real> -> seq<real>,
    infer: (seq<real>, nat, S) -> (seq<real>, S),
    advance: (D, seq<real>) -> D,
    transcript: D -> string)

  ghost predicate ValidModel<S, D>(m: Model<S, D>) {
    && 0 < m.winStep <= m.winLen && m.nFeatures > 0 && m.nSteps > 0
    && forall b :: |m.computeMfcc(b)| == m.nFeatures
  }

  /** mfcc_feats_per_timestep. */
  function StepLen<S, D>(m: Model<S, D>): nat { (2 * m.nContext + 1) * m.nFeatures }
  function BatchLen<S, D>(m: Model<S, D>): nat { m.nSteps * StepLen(m) }

  lemma Lengths<S, D>(m: Model<S, D>)
    requires m.nFeatures > 0 && m.nSteps > 0
    ensures 0 < m.nFeatures <= StepLen(m) <= BatchLen(m) && BatchLen(m) / StepLen(m) == m.nSteps
  {
    var l := StepLen(m);
    assert l == 2 * m.nContext * m.nFeatures + m.nFeatures;
    AtLeast(m.nSteps, l);
    DivExact(m.nSteps, l);
  }

  lemma AtLeast(k: nat, l: nat)
    requires k > 0
    ensures k * l >= l
  {
  }

  lemma DivExact(k: nat, l: nat)
    requires l > 0
    ensures (k * l) / l == k
  {
    var q, r := (k * l) / l, (k * l) % l;
    assert k * l == q * l + r;
    if q < k { Later(q, k, l); } else if k < q { Later(k, q, l); }
  }

  // ----- the pipeline as functions of the audio

  function Zeros(n: nat): seq<real> { seq(n, _ => 0.0) }

  /** The features of the given windows, in order. */
  function Features<S, D>(m: Model<S, D>, windows: seq<seq<real>>): seq<seq<real>> {
    if windows == [] then []
    else Features(m, windows[..|windows| - 1]) + [m.computeMfcc(windows[|windows| - 1])]
  }

  /** The feature stream: an empty past of nContext frames, then the frames. */
  function FeatureStream<S, D>(m: Model<S, D>, frames: seq<seq<real>>): seq<real> {
    Zeros(m.nFeatures * m.nContext) + Concat(frames)
  }

  /** The step count given to the acoustic model with `n` values. */
  function StepsIn(n: nat, len: nat): nat
    requires len > 0
  {
    n / len
  }

  /** `k` calls of `n` steps each. */
  predicate AllFull(counts: seq<nat>, k: nat, n: nat) {
    |counts| == k && forall i | 0 <= i < k :: counts[i] == n
  }

  function Sum(counts: seq<nat>): nat {
    if counts == [] then 0 else Sum(counts[..|counts| - 1]) + counts[|counts| - 1]
  }

  /** Recurrent and decoder state after the given batches. */
  function RunBatches<S, D>(m: Model<S, D>, s: S, d: D, batches: seq<seq<real>>): (S, D)
    requires StepLen(m) > 0
  {
    if batches == [] then (s, d)
    else
      var last := batches[|batches| - 1];
      var before := RunBatches(m, s, d, batches[..|batches| - 1]);
      var out := m.infer(last, StepsIn(|last|, StepLen(m)), before.0);
      (out.1, m.advance(before.1, out.0))
  }

  lemma RunOneMore<S, D>(m: Model<S, D>, s: S, d: D, batches: seq<seq<real>>, b: seq<real>)
    requires StepLen(m) > 0
    ensures RunBatches(m, s, d, batches + [b])
         == var before := RunBatches(m, s, d, batches);
            var out := m.infer(b, StepsIn(|b|, StepLen(m)), before.0);
            (out.1, m.advance(before.1, out.0))
  {
    assert (batches + [b])[..|batches|] == batches;
  }

  lemma FeaturesAppend<S, D>(m: Model<S, D>, w: seq<seq<real>>, x: seq<real>)
    ensures Features(m, w + [x]) == Features(m, w) + [m.computeMfcc(x)]
  {
    assert (w + [x])[..|w|] == w;
  }

  /** Everything the stream holds between calls, as a function of the audio fed so far. */
  datatype Snapshot<S, D> = Snapshot(audioBuffer: seq<real>, mfccBuffer: seq<real>, batchBuffer: seq<real>, run: (S, D))

  function FeatsOf<S, D>(m: Model<S, D>, audio: seq<real>): seq<real>
    requires 0 < m.winStep <= m.winLen
  {
    FeatureStream(m, Features(m, All(audio, m.winLen, m.winStep)))
  }

  function StepsOf<S, D>(m: Model<S, D>, feats: seq<real>): seq<real>
    requires m.nFeatures > 0 && m.nSteps > 0
  {
    Lengths(m);
    Concat(All(feats, StepLen(m), m.nFeatures))
  }

  function After<S, D>(m: Model<S, D>, s: S, d: D, audio: seq<real>): Snapshot<S, D>
    requires 0 < m.winStep <= m.winLen && m.nFeatures > 0 && m.nSteps > 0
  {
    Lengths(m);
    var feats := FeatsOf(m, audio);
    var steps := StepsOf(m, feats);
    Snapshot(Rest(audio, m.winLen, m.winStep), Rest(feats, StepLen(m), m.nFeatures),
      Rest(steps, BatchLen(m), BatchLen(m)),
             RunBatches(m, s, d, All(steps, BatchLen(m), BatchLen(m))))
  }

  function Convert(sample: int): real { sample as real / 32768.0 }

  function ConvertAll(samples: seq<int>): seq<real> {
    if samples == [] then [] else ConvertAll(samples[..|samples| - 1]) + [Convert(samples[|samples| - 1])]
  }

  lemma AppendPiece(was: seq<real>, buf: seq<real>, start: nat, n: nat)
    requires start + n <= |buf|
    ensures was + buf[..start] + buf[start..start + n] == was + buf[..start + n]
  {
  }

  class StreamingState<S, D> {
    const model: Model<S, D>
    var audioBuffer: seq<real>
    var mfccBuffer: seq<real>
    var batchBuffer: seq<real>
    var recurrent: S
    var decoder: D

    ghost const s0: S
    ghost const d0: D
    ghost var audio: seq<real>
    ghost var feats: seq<real>
    ghost var steps: seq<real>
    /** The step counts given to the acoustic model so far, call by call. */
    ghost var counts: seq<nat>

    /** The batch buffer and the states, told by all the timestep data so far. */
    ghost predicate BatchOk()
      reads this
    {
      && ValidModel(model) && 0 < StepLen(model) <= BatchLen(model)
      && batchBuffer == Rest(steps, BatchLen(model), BatchLen(model))
      && (recurrent, decoder) == RunBatches(model, s0, d0, All(steps, BatchLen(model), BatchLen(model)))
      && AllFull(counts, |All(steps, BatchLen(model), BatchLen(model))|, model.nSteps)
    }

    /** The feature buffer, told by all the feature data so far. */
    ghost predicate StepsOk()
      reads this
    {
      && BatchOk() && 0 < model.nFeatures <= StepLen(model)
      && mfccBuffer == Rest(feats, StepLen(model), model.nFeatures)
      && steps == Concat(All(feats, StepLen(model), model.nFeatures))
    }

    ghost predicate Valid()
      reads this
    {
      && StepsOk()
      && audioBuffer == Rest(audio, model.winLen, model.winStep)
      && feats == FeatureStream(model, Features(model, All(audio, model.winLen, model.winStep)))
    }

    /** DS_CreateStream. */
    constructor (model: Model<S, D>, s0: S, d0: D)
      requires ValidModel(model)
      ensures Valid() && audio == [] && this.model == model && this.s0 == s0 && this.d0 == d0
    {
      this.model, this.s0, this.d0 := model, s0, d0;
      audioBuffer, batchBuffer, recurrent, decoder := [], [], s0, d0;
      mfccBuffer := Zeros(model.nFeatures * model.nContext);
      audio, steps, counts := [], [], [];
      feats := Zeros(model.nFeatures * model.nContext);
      Lengths(model);
      Starts(model, s0, d0);
    }

    /** Gives the acoustic model `n` whole timesteps, and its output to the decoder. */
    method ProcessBatch(buf: seq<real>, n: nat, ghost batches: seq<seq<real>>)
      requires StepLen(model) > 0 && n * StepLen(model) == |buf|
      requires (recurrent, decoder) == RunBatches(model, s0, d0, batches)
      modifies this`recurrent, this`decoder, this`counts
      ensures (recurrent, decoder) == RunBatches(model, s0, d0, batches + [buf])
      ensures counts == old(counts) + [n]
    {
      RunOneMore(model, s0, d0, batches, buf);
      DivExact(n, StepLen(model));
      counts := counts + [n];
      var out := model.infer(buf, n, recurrent);
      recurrent := out.1;
      decoder := model.advance(decoder, out.0);
    }

    method ProcessMfccWindow(buf: seq<real>)
      requires BatchOk()
      modifies this`batchBuffer, this`recurrent, this`decoder, this`steps, this`counts
      ensures BatchOk() && steps == old(steps) + buf
    {
      hide RunBatches, Rest, All, StepLen, BatchLen, ValidModel, AllFull;
      var len := BatchLen(model);
      var start := 0;
      Facts(model);
      while start < |buf|
        invariant 0 <= start <= |buf| && BatchOk()
        invariant steps == old(steps) + buf[..start]
      {
        RestIsShort(steps, len, len);
        var n := if |buf| - start < len - |batchBuffer| then |buf| - start else len - |batchBuffer|;
        ghost var q, was := buf[start..start + n], steps;
        AppendPiece(old(steps), buf, start, n);
        batchBuffer := batchBuffer + buf[start..start + n];
        steps := steps + q;
        start := start + n;
        if |batchBuffer| == len {
          Filled(was, q, len, len);
          FullNext(counts, |All(was, len, len)|, model.nSteps);
          ProcessBatch(batchBuffer, model.nSteps, All(was, len, len));
          batchBuffer := [];
        } else {
          Filling(was, q, len, len);
        }
      }
      assert buf[..|buf|] == buf;
    }

    method PushMfccBuffer(buf: seq<real>)
      requires StepsOk()
      modifies this`mfccBuffer, this`feats, this`batchBuffer, this`recurrent, this`decoder, this`steps, this`counts
      ensures StepsOk() && feats == old(feats) + buf
    {
      hide RunBatches, Rest, All, StepLen, BatchLen, ValidModel, Concat;
      var len, step := StepLen(model), model.nFeatures;
      var start := 0;
      while start < |buf|
        invariant 0 <= start <= |buf| && StepsOk()
        invariant feats == old(feats) + buf[..start]
      {
        RestIsShort(feats, len, step);
        var n := if |buf| - start < len - |mfccBuffer| then |buf| - start else len - |mfccBuffer|;
        ghost var q, was := buf[start..start + n], feats;
        AppendPiece(old(feats), buf, start, n);
        mfccBuffer := mfccBuffer + buf[start..start + n];
        feats := feats + q;
        start := start + n;
        if |mfccBuffer| == len {
          Filled(was, q, len, step);
          ConcatAppend(All(was, len, step), mfccBuffer);
          ProcessMfccWindow(mfccBuffer);
          mfccBuffer := mfccBuffer[step..];
        } else {
          Filling(was, q, len, step);
        }
      }
      assert buf[..|buf|] == buf;
    }

    method ProcessAudioWindow(buf: seq<real>)
      requires StepsOk()
      modifies this`mfccBuffer, this`feats, this`batchBuffer, this`recurrent, this`decoder, this`steps, this`counts
      ensures StepsOk() && feats == old(feats) + model.computeMfcc(buf)
    {
      var mfcc := model.computeMfcc(buf);
      PushMfccBuffer(mfcc);
    }

    /** Consumes all the samples.  Afterwards everything is told by all the audio fed so far. */
    method FeedAudioContent(buffer: seq<int>)
      requires Valid()
      modifies this
      ensures Valid() && audio == old(audio) + ConvertAll(buffer)
    {
      hide RunBatches, Rest, All, StepLen, BatchLen, Concat, FeatureStream, Features, Convert;
      var i := 0;
      var len, step := model.winLen, model.winStep;
      while i < |buffer|
        invariant 0 <= i <= |buffer| && Valid()
        invariant audio == old(audio) + ConvertAll(buffer[..i])
      {
        RestIsShort(audio, len, step);
        ghost var was, q := audio, [];
        i, q := FillAudioBuffer(buffer, i);
        if |audioBuffer| == len {
          Filled(was, q, len, step);
          NextFeature(model, All(was, len, step), audioBuffer);
          ProcessAudioWindow(audioBuffer);
          audioBuffer := audioBuffer[step..];
        } else {
          Filling(was, q, len, step);
        }
      }
      assert buffer[..|buffer|] == buffer;
    }

    /** Moves samples to the audio buffer until it is full or there are no more. */
    method FillAudioBuffer(buffer: seq<int>, start: nat) returns (i: nat, ghost q: seq<real>)
      requires start < |buffer| && |audioBuffer| < model.winLen
      modifies this`audioBuffer, this`audio
      ensures start < i <= |buffer| && (i == |buffer| || |audioBuffer| == model.winLen) && |audioBuffer| <= model.winLen
      ensures audioBuffer == old(audioBuffer) + q && audio == old(audio) + q
      ensures ConvertAll(buffer[..i]) == ConvertAll(buffer[..start]) + q
    {
      hide Convert, ConvertAll;
      i, q := start, [];
      while i < |buffer| && |audioBuffer| < model.winLen
        invariant start <= i <= |buffer| && |audioBuffer| <= model.winLen && |q| == i - start
        invariant audioBuffer == old(audioBuffer) + q && audio == old(audio) + q
        invariant ConvertAll(buffer[..i]) == ConvertAll(buffer[..start]) + q
        decreases |buffer| - i
      {
        audioBuffer := audioBuffer + [Convert(buffer[i])];
        ConvertNext(buffer, i);
        q := q + [Convert(buffer[i])];
        audio := audio + [Convert(buffer[i])];
        i := i + 1;
      }
    }

    /** The transcript of all the audio fed so far, however it was divided over calls. */
    method IntermediateDecode() returns (r: string)
      requires Valid()
      ensures r == model.transcript(After(model, s0, d0, audio).run.1)
    {
      StateIsFunctionOfAudio();
      r := model.transcript(decoder);
    }

    /** Between calls the whole state is a function of the audio fed so far. */
    lemma StateIsFunctionOfAudio()
      requires Valid()
      ensures Snapshot(audioBuffer, mfccBuffer, batchBuffer, (recurrent, decoder)) == After(model, s0, d0, audio)
    {
      Lengths(model);
    }

    /** Feeding the audio in any pieces, with looks at the transcript in between, ends in the state of one
        single feed. */
    method FeedInPieces(pieces: seq<seq<int>>)
      requires Valid() && audio == []
      modifies this
      ensures Valid()
      ensures Snapshot(audioBuffer, mfccBuffer, batchBuffer, (recurrent, decoder))
              == After(model, s0, d0, ConvertAll(Concat(pieces)))
    {
      hide Valid, Concat, ConvertAll, After;
      NoPieces();
      assert pieces[..0] == [];
      for i := 0 to |pieces|
        invariant Valid() && audio == ConvertAll(Concat(pieces[..i]))
      {
        assert pieces[..i + 1] == pieces[..i] + [pieces[i]];
        ConcatAppend(pieces[..i], pieces[i]);
        ConvertConcat(Concat(pieces[..i]), pieces[i]);
        FeedAudioContent(pieces[i]);
        var _ := IntermediateDecode();
      }
      assert pieces[..|pieces|] == pieces;
      StateIsFunctionOfAudio();
    }

    /** Flushes the rest of the audio as one more window, then nContext empty frames, then the last batch. */
    method FinalizeStream()
      requires Valid()
      modifies this
      ensures (recurrent, decoder) == RunBatches(model, s0, d0, FinalBatches(model, old(audio)))
      ensures Sum(counts) == |FramesOf(model, old(audio))|
      ensures forall i | 0 <= i < |counts| - 1 :: counts[i] == model.nSteps
      ensures counts != [] && 0 < counts[|counts| - 1] <= model.nSteps
    {
      hide RunBatches, Rest, All, StepLen, BatchLen, Concat, FeatureStream, Features, Zeros, Sum, StepsIn, AllFull,
        FinalBatches, Timesteps;
      ghost var all := old(audio);
      NextFeature(model, All(all, model.winLen, model.winStep), audioBuffer);
      ProcessAudioWindow(audioBuffer);
      AddZeroFrames();
      FinalIs(model, all, feats, steps);
      FinalIsFull(model, all);
      ghost var full := All(steps, BatchLen(model), BatchLen(model));
      assert full + [] == full;
      LastBatch(model, all, batchBuffer);
      ghost var before := counts;
      if |batchBuffer| > 0 { ProcessBatch(batchBuffer, StepsIn(|batchBuffer|, StepLen(model)), full); }
      CountsFit(model, all, before, counts);
      StepsAddUp(model, all, counts);
    }

    method AddZeroFrames()
      requires StepsOk()
      modifies this`mfccBuffer, this`feats, this`batchBuffer, this`recurrent, this`decoder, this`steps, this`counts
      ensures StepsOk() && feats == old(feats) + Zeros(model.nFeatures * model.nContext)
    {
      hide RunBatches, Rest, All, StepLen, BatchLen, Concat, Zeros;
      ZerosNone();
      for i := 0 to model.nContext
        invariant StepsOk() && feats == old(feats) + Zeros(model.nFeatures * i)
      {
        ZerosAppend(model.nFeatures, i);
        PushMfccBuffer(Zeros(model.nFeatures));
      }
    }
  }

  lemma NoPieces()
    ensures Concat<int>([]) == [] && ConvertAll([]) == []
  {
  }

  lemma {:induction false} ConvertConcat(a: seq<int>, b: seq<int>)
    ensures ConvertAll(a + b) == ConvertAll(a) + ConvertAll(b)
  {
    if b == [] {
      assert a + b == a;
    } else {
      assert (a + b)[..|a + b| - 1] == a + b[..|b| - 1];
      ConvertConcat(a, b[..|b| - 1]);
    }
  }

  lemma ZerosNone()
    ensures forall n: nat :: Zeros(n * 0) == []
  {
  }

  lemma ZerosAppend(n: nat, i: nat)
    ensures Zeros(n * (i + 1)) == Zeros(n * i) + Zeros(n)
  {
    assert n * (i + 1) == n * i + n;
  }

  // ----- a finished stream

  /** One feature frame per complete window, and one for the rest of the audio. */
  function FramesOf<S, D>(m: Model<S, D>, audio: seq<real>): seq<seq<real>>
    requires 0 < m.winStep <= m.winLen
  {
    Features(m, All(audio, m.winLen, m.winStep)) + [m.computeMfcc(Rest(audio, m.winLen, m.winStep))]
  }

  function FinalFeats<S, D>(m: Model<S, D>, audio: seq<real>): seq<real>
    requires 0 < m.winStep <= m.winLen
  {
    FeatureStream(m, FramesOf(m, audio)) + Zeros(m.nFeatures * m.nContext)
  }

  /** The timesteps of a finished stream, in order. */
  function Timesteps<S, D>(m: Model<S, D>, audio: seq<real>): seq<seq<real>>
    requires 0 < m.winStep <= m.winLen && m.nFeatures > 0 && m.nSteps > 0
  {
    Lengths(m);
    All(FinalFeats(m, audio), StepLen(m), m.nFeatures)
  }

  /** The batches of a finished stream: full ones, and the rest if there is any. */
  function FinalBatches<S, D>(m: Model<S, D>, audio: seq<real>): seq<seq<real>>
    requires 0 < m.winStep <= m.winLen && m.nFeatures > 0 && m.nSteps > 0
  {
    Lengths(m);
    var steps := Concat(Timesteps(m, audio));
    var rest := Rest(steps, BatchLen(m), BatchLen(m));
    All(steps, BatchLen(m), BatchLen(m)) + (if rest == [] then [] else [rest])
  }

  lemma FinalIs<S, D>(m: Model<S, D>, audio: seq<real>, feats: seq<real>, steps: seq<real>)
    requires ValidModel(m) && 0 < m.nFeatures <= StepLen(m) <= BatchLen(m)
    requires feats == FeatureStream(m,
             Features(m, All(audio, m.winLen, m.winStep) + [Rest(audio, m.winLen, m.winStep)]))
                      + Zeros(m.nFeatures * m.nContext)
    requires steps == Concat(All(feats, StepLen(m), m.nFeatures))
    ensures steps == Concat(Timesteps(m, audio))
  {
    hide Rest, All, StepLen, BatchLen, Concat, FeatureStream, Features, Zeros;
    FeaturesAppend(m, All(audio, m.winLen, m.winStep), Rest(audio, m.winLen, m.winStep));
  }

  // ----- the same timesteps by the definition used in training

  /** Frame `i`, or zeros before the first and after the last frame. */
  function PaddedFrame<S, D>(m: Model<S, D>, frames: seq<seq<real>>, i: int): seq<real> {
    if 0 <= i < |frames| then frames[i] else Zeros(m.nFeatures)
  }

  /** Frames t - nContext .. t + nContext, one after the other. */
  function ReferenceTimestep<S, D>(m: Model<S, D>, frames: seq<seq<real>>, t: nat): seq<real> {
    Concat(seq(2 * m.nContext + 1, (k: nat) => PaddedFrame(m, frames, t - m.nContext + k)))
  }

  /** The frames with nContext empty ones on either side. */
  function Padded<S, D>(m: Model<S, D>, frames: seq<seq<real>>): seq<seq<real>> {
    seq(|frames| + 2 * m.nContext, (k: nat) => PaddedFrame(m, frames, k - m.nContext))
  }

  function ZeroFrames(n: nat, k: nat): seq<seq<real>> {
    if k == 0 then [] else ZeroFrames(n, k - 1) + [Zeros(n)]
  }

  lemma {:induction false} ZeroFramesAre(n: nat, k: nat)
    ensures |ZeroFrames(n, k)| == k && (forall i | 0 <= i < k :: ZeroFrames(n, k)[i] == Zeros(n))
    ensures Concat(ZeroFrames(n, k)) == Zeros(n * k)
  {
    if k > 0 {
      ZeroFramesAre(n, k - 1);
      ConcatAppend(ZeroFrames(n, k - 1), Zeros(n));
      ZerosAppend(n, k - 1);
    }
  }

  lemma {:induction false} FeaturesLength<S, D>(m: Model<S, D>, w: seq<seq<real>>)
    requires ValidModel(m)
    ensures |Features(m, w)| == |w| && forall i | 0 <= i < |w| :: |Features(m, w)[i]| == m.nFeatures
  {
    if w != [] { FeaturesLength(m, w[..|w| - 1]); }
  }

  /** The feature stream of a finished stream is the padded frames laid end to end. */
  lemma FinalFeatsArePadded<S, D>(m: Model<S, D>, audio: seq<real>)
    requires ValidModel(m)
    ensures FinalFeats(m, audio) == Concat(Padded(m, FramesOf(m, audio)))
  {
    hide Zeros, Features, All, Rest, Concat;
    var z, f := ZeroFrames(m.nFeatures, m.nContext), FramesOf(m, audio);
    ZeroFramesAre(m.nFeatures, m.nContext);
    ConcatConcat(z, f);
    ConcatConcat(z + f, z);
    var w := z + f + z;
    forall i | 0 <= i < |w| ensures Padded(m, f)[i] == w[i] { PaddedAt(m, f, i); }
    assert Padded(m, f) == w;
  }

  /** A finished stream has one timestep per feature frame, and timestep t is frames t - nContext to
      t + nContext, with zeros outside the utterance. */
  lemma OneTimestepPerFrame<S, D>(m: Model<S, D>, audio: seq<real>, t: nat)
    requires ValidModel(m)
    ensures |Timesteps(m, audio)| == |FramesOf(m, audio)|
    ensures |FramesOf(m, audio)| == Count(|audio|, m.winLen, m.winStep) + 1
    ensures t < |FramesOf(m, audio)| ==> Timesteps(m, audio)[t] == ReferenceTimestep(m, FramesOf(m, audio), t)
  {
    hide Features, Rest, Concat, Zeros;
    var f := FramesOf(m, audio);
    var w, n, c := Padded(m, f), m.nFeatures, 2 * m.nContext + 1;
    FeaturesLength(m, All(audio, m.winLen, m.winStep));
    FinalFeatsArePadded(m, audio);
    Lengths(m);
    FramesWide(m, f);
    ConcatLength(w, n);
    WindowCount(|f|, m.nContext, n);
    CountUnique(|Concat(w)|, StepLen(m), n, |f|);
    if t < |f| {
      ConcatRange(w, n, t, c);
      assert w[t..t + c] == seq(c, (k: nat) => PaddedFrame(m, f, t - m.nContext + k));
    }
  }

  /** The same number by number: place `k` of timestep `t` holds frame t - nContext + k, or zeros. */
  lemma TimestepValue<S, D>(m: Model<S, D>, frames: seq<seq<real>>, t: nat, k: nat, j: nat)
    requires k <= 2 * m.nContext && j < m.nFeatures
    requires forall i | 0 <= i < |frames| :: |frames[i]| == m.nFeatures
    ensures |ReferenceTimestep(m, frames, t)| == (2 * m.nContext + 1) * m.nFeatures
    ensures k * m.nFeatures + j < (2 * m.nContext + 1) * m.nFeatures
    ensures ReferenceTimestep(m, frames, t)[k * m.nFeatures + j]
         == var i := t - m.nContext + k; if 0 <= i < |frames| then frames[i][j] else 0.0
  {
    hide Concat;
    var w := seq(2 * m.nContext + 1, (k: nat) => PaddedFrame(m, frames, t - m.nContext + k));
    forall i | 0 <= i < |w| ensures |w[i]| == m.nFeatures {
      assert w[i] == PaddedFrame(m, frames, t - m.nContext + i);
    }
    assert w[k] == PaddedFrame(m, frames, t - m.nContext + k);
    ConcatAt(w, m.nFeatures, k, j);
  }

  lemma ConcatAt(w: seq<seq<real>>, n: nat, k: nat, j: nat)
    requires (forall i | 0 <= i < |w| :: |w[i]| == n) && k < |w| && j < n
    ensures |Concat(w)| == |w| * n && k * n + j < |w| * n && Concat(w)[k * n + j] == w[k][j]
  {
    hide Concat;
    ConcatLength(w, n);
    ConcatRange(w, n, k, 1);
    assert w[k..k + 1] == [] + [w[k]];
    ConcatAppend([], w[k]);
    ConcatNone<real>();
    Later(k, |w|, n);
    assert Slice(Concat(w), k * n, 1 * n)[j] == Concat(w)[k * n + j];
  }

  lemma FramesWide<S, D>(m: Model<S, D>, f: seq<seq<real>>)
    requires forall i | 0 <= i < |f| :: |f[i]| == m.nFeatures
    ensures forall i | 0 <= i < |Padded(m, f)| :: |Padded(m, f)[i]| == m.nFeatures
  {
    forall i | 0 <= i < |Padded(m, f)| ensures |Padded(m, f)[i]| == m.nFeatures { PaddedAt(m, f, i); }
  }

  lemma PaddedAt<S, D>(m: Model<S, D>, f: seq<seq<real>>, i: nat)
    requires i < |f| + 2 * m.nContext
    ensures |Padded(m, f)| == |f| + 2 * m.nContext && Padded(m, f)[i] == PaddedFrame(m, f, i - m.nContext)
  {
  }

  lemma WindowCount(f: nat, c: nat, n: nat)
    requires f > 0 && n > 0
    ensures var total, len := (f + 2 * c) * n, (2 * c + 1) * n; (f - 1) * n + len <= total < f * n + len
  {
    assert (f + 2 * c) * n == (f - 1) * n + (2 * c + 1) * n;
    assert f * n == (f - 1) * n + n;
  }

  lemma Multiple(k: int, l: int)
    requires l > 0 && k >= 0
    ensures (k * l) % l == 0
  {
    DivExact(k, l);
  }

  lemma StepsLength<S, D>(m: Model<S, D>, audio: seq<real>)
    requires ValidModel(m)
    ensures |Concat(Timesteps(m, audio))| == |Timesteps(m, audio)| * StepLen(m)
  {
    Lengths(m);
    hide StepLen, Concat, FinalFeats, All;
    WindowLengths(FinalFeats(m, audio), StepLen(m), m.nFeatures);
    ConcatLength(Timesteps(m, audio), StepLen(m));
  }

  lemma RestOfWhole(s: seq<real>, a: nat, k: nat, l: nat)
    requires l > 0 && k > 0 && |s| == a * l && k * l > 0
    ensures |Rest(s, k * l, k * l)| % l == 0
  {
    hide Rest, Count;
    var c := Count(|s|, k * l, k * l);
    RestLength(s, k * l);
    assert c * (k * l) == (c * k) * l;
    MultipleDifference(a, c * k, l);
  }

  /** Full batches and the rest are whole numbers of timesteps. */
  lemma WholeSteps<S, D>(m: Model<S, D>, audio: seq<real>)
    requires ValidModel(m)
    ensures 0 < StepLen(m) <= BatchLen(m) && BatchLen(m) % StepLen(m) == 0
    ensures |Rest(Concat(Timesteps(m, audio)), BatchLen(m), BatchLen(m))| % StepLen(m) == 0
  {
    hide Timesteps, StepLen, Rest, Concat;
    Lengths(m);
    Multiple(m.nSteps, StepLen(m));
    StepsLength(m, audio);
    RestOfWhole(Concat(Timesteps(m, audio)), |Timesteps(m, audio)|, m.nSteps, StepLen(m));
  }

  lemma RestLength(s: seq<real>, n: nat)
    requires n > 0
    ensures |Rest(s, n, n)| == |s| - Count(|s|, n, n) * n
  {
  }

  lemma MultipleDifference(a: nat, b: nat, l: nat)
    requires l > 0 && a * l - b * l >= 0
    ensures (a * l - b * l) % l == 0
  {
    assert a * l - b * l == (a - b) * l;
    if a < b { Later(a, b + 1, l); }
    Multiple(if a < b then 0 else a - b, l);
  }

  /** The batches are the timesteps in order: nothing is lost, repeated or split. */
  lemma BatchesAreTimesteps<S, D>(m: Model<S, D>, audio: seq<real>)
    requires ValidModel(m)
    ensures Concat(FinalBatches(m, audio)) == Concat(Timesteps(m, audio))
    ensures forall i | 0 <= i < |FinalBatches(m, audio)| - 1 :: |FinalBatches(m, audio)[i]| == BatchLen(m)
    ensures forall b | b in FinalBatches(m, audio) :: 0 < |b| <= BatchLen(m) && |b| % StepLen(m) == 0
  {
    Lengths(m);
    var steps, len := Concat(Timesteps(m, audio)), BatchLen(m);
    WholeSteps(m, audio);
    hide Timesteps, BatchLen, Concat, StepLen;
    Tiles(steps, len);
    RestIsShort(steps, len, len);
    WindowLengths(steps, len, len);
    var all, rest := All(steps, len, len), Rest(steps, len, len);
    if rest != [] { ConcatAppend(all, rest); } else { assert all + [] == all; }
  }

  /** The rest is a whole number of timesteps, and that number is the step count given with it. */
  lemma LastBatch<S, D>(m: Model<S, D>, audio: seq<real>, rest: seq<real>)
    requires ValidModel(m) && 0 < StepLen(m) <= BatchLen(m)
    requires rest == Rest(Concat(Timesteps(m, audio)), BatchLen(m), BatchLen(m))
    ensures StepsIn(|rest|, StepLen(m)) * StepLen(m) == |rest|
  {
    hide Timesteps, Rest, Concat, StepLen, BatchLen;
    WholeSteps(m, audio);
  }

  lemma {:induction false} ConcatSum(batches: seq<seq<real>>, counts: seq<nat>, len: nat)
    requires |counts| == |batches| && forall i | 0 <= i < |counts| :: counts[i] * len == |batches[i]|
    ensures |Concat(batches)| == Sum(counts) * len
  {
    if counts != [] {
      var n := |counts| - 1;
      ConcatSum(batches[..n], counts[..n], len);
      ConcatAppend(batches[..n], batches[n]);
      assert batches == batches[..n] + [batches[n]];
      assert (Sum(counts[..n]) + counts[n]) * len == Sum(counts[..n]) * len + counts[n] * len;
    }
  }

  /** Step counts that fit the batches of a finished stream add up to its feature frames: every frame is one
      step of one call, all calls but the last are full. */
  lemma StepsAddUp<S, D>(m: Model<S, D>, audio: seq<real>, counts: seq<nat>)
    requires ValidModel(m) && |counts| == |FinalBatches(m, audio)|
    requires forall i | 0 <= i < |counts| :: counts[i] * StepLen(m) == |FinalBatches(m, audio)[i]|
    ensures Sum(counts) == |FramesOf(m, audio)|
    ensures forall i | 0 <= i < |counts| - 1 :: counts[i] == m.nSteps
    ensures counts != [] && 0 < counts[|counts| - 1] <= m.nSteps
  {
    Lengths(m);
    hide Timesteps, Concat, StepLen, Sum, FinalBatches;
    var b, len := FinalBatches(m, audio), StepLen(m);
    BatchesAreTimesteps(m, audio);
    StepsLength(m, audio);
    OneTimestepPerFrame(m, audio, 0);
    ConcatSum(b, counts, len);
    SameFactor(Sum(counts), |Timesteps(m, audio)|, len);
    forall i | 0 <= i < |counts| - 1 ensures counts[i] == m.nSteps { SameFactor(counts[i], m.nSteps, len); }
    if counts == [] {
      NoneSum();
      assert false;
    }
    var last := counts[|counts| - 1];
    assert b[|counts| - 1] in b;
    Within(last, m.nSteps, len);
  }

  lemma NoneSum()
    ensures Sum([]) == 0
  {
  }

  lemma SameFactor(a: nat, b: nat, l: nat)
    requires l > 0 && a * l == b * l
    ensures a == b
  {
    DivExact(a, l);
    DivExact(b, l);
  }

  lemma Within(a: nat, b: nat, l: nat)
    requires l > 0 && 0 < a * l <= b * l
    ensures 0 < a <= b
  {
    if a > b { Later(b, a, l); }
  }

  lemma FullNext(counts: seq<nat>, k: nat, n: nat)
    requires AllFull(counts, k, n)
    ensures AllFull(counts + [n], k + 1, n)
  {
  }

  /** The step counts of a finished stream fit its batches. */
  lemma CountsFit<S, D>(m: Model<S, D>, audio: seq<real>, full: seq<nat>, counts: seq<nat>)
    requires ValidModel(m) && 0 < StepLen(m) <= BatchLen(m)
    requires AllFull(full, |All(Concat(Timesteps(m, audio)), BatchLen(m), BatchLen(m))|, m.nSteps)
    requires var rest := Rest(Concat(Timesteps(m, audio)), BatchLen(m), BatchLen(m));
             counts == if rest == [] then full else full + [StepsIn(|rest|, StepLen(m))]
    ensures |counts| == |FinalBatches(m, audio)|
    ensures forall i | 0 <= i < |counts| :: counts[i] * StepLen(m) == |FinalBatches(m, audio)[i]|
  {
    hide Timesteps, Rest, All, Concat, StepLen, StepsIn;
    var steps, len := Concat(Timesteps(m, audio)), BatchLen(m);
    LastBatch(m, audio, Rest(steps, len, len));
    WindowLengths(steps, len, len);
    FinalIsFull(m, audio);
    forall i | 0 <= i < |counts| ensures counts[i] * StepLen(m) == |FinalBatches(m, audio)[i]| {
      if i < |full| { assert All(steps, len, len)[i] in All(steps, len, len); }
    }
  }

  lemma FinalIsFull<S, D>(m: Model<S, D>, audio: seq<real>)
    requires ValidModel(m) && 0 < StepLen(m) <= BatchLen(m)
    ensures var steps := Concat(Timesteps(m, audio));
            var rest := Rest(steps, BatchLen(m), BatchLen(m));
            FinalBatches(m, audio) == All(steps, BatchLen(m), BatchLen(m)) + (if rest == [] then [] else [rest])
  {
  }

  lemma Facts<S, D>(m: Model<S, D>)
    requires ValidModel(m)
    ensures StepLen(m) > 0 && BatchLen(m) > 0 && BatchLen(m) == m.nSteps * StepLen(m)
  {
    Lengths(m);
  }

  /** Every sample is kept, as the real number whose 32768-fold it is: 16-bit samples end up in [-1, 1). */
  lemma {:induction false} SamplesKept(samples: seq<int>, i: nat)
    requires i < |samples|
    ensures |ConvertAll(samples)| == |samples| && ConvertAll(samples)[i] * 32768.0 == samples[i] as real
    ensures -32768 <= samples[i] <= 32767 ==> -1.0 <= ConvertAll(samples)[i] < 1.0
  {
    if |samples| > 1 {
      SamplesKept(samples[..|samples| - 1], if i < |samples| - 1 then i else 0);
    }
  }

  lemma ConvertNext(buffer: seq<int>, i: nat)
    requires i < |buffer|
    ensures ConvertAll(buffer[..i + 1]) == ConvertAll(buffer[..i]) + [Convert(buffer[i])]
  {
    assert buffer[..i + 1][..i] == buffer[..i];
  }

  lemma NextFeature<S, D>(m: Model<S, D>, w: seq<seq<real>>, x: seq<real>)
    ensures FeatureStream(m, Features(m, w + [x])) == FeatureStream(m, Features(m, w)) + m.computeMfcc(x)
  {
    FeaturesAppend(m, w, x);
    ConcatAppend(Features(m, w), m.computeMfcc(x));
  }

  lemma Starts<S, D>(m: Model<S, D>, s: S, d: D)
    requires ValidModel(m)
    ensures 0 < m.nFeatures <= StepLen(m) <= BatchLen(m)
    ensures All<real>([], BatchLen(m), BatchLen(m)) == [] && Rest<real>([], BatchLen(m), BatchLen(m)) == []
    ensures All<real>([], m.winLen, m.winStep) == [] && Rest<real>([], m.winLen, m.winStep) == []
    ensures var z := Zeros(m.nFeatures * m.nContext);
            Rest(z, StepLen(m), m.nFeatures) == z && All(z, StepLen(m), m.nFeatures) == [] && FeatureStream(m, []) == z
    ensures RunBatches(m, s, d, []) == (s, d) && Features(m, []) == []
  {
    Lengths(m);
    Empty<real>(BatchLen(m), BatchLen(m));
    Empty<real>(m.winLen, m.winStep);
    var z := Zeros(m.nFeatures * m.nContext);
    Empty<real>(StepLen(m), m.nFeatures);
    assert StepLen(m) == 2 * (m.nFeatures * m.nContext) + m.nFeatures;
    Filling([], z, StepLen(m), m.nFeatures);
    assert [] + z == z;
    assert z + [] == z;
  }
}
