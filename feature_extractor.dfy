/**
 * FeatureExtractor: a fixed-layout feature vector built from the agent context
 * (FSM one-hot, clamped health readings, clamped sensor readings, recent action
 * history), zero-padded or truncated to `inDim`, replicated over `window` rows,
 * and a constant action mask.
 *
 * The functions state the layout; `FeatureExtractor.Extract` builds it step by
 * step as `extract` does and is proved to produce it.
 */
module Features {
  import opened Models

  /** Entries built before padding: 4 one-hot + 3 health + 4 sensor + 5 history. */
  const BuiltCount: nat := 16
  const HistorySlots: nat := 5
  /** The mask row: the first four actions enabled, two disabled. */
  const MaskRow: seq<bool> := [true, true, true, true, false, false]

  /** Python's `min(hi, max(lo, x))`: within a range it is `x`, outside it the nearer end. */
  function Clamp(x: real, lo: real, hi: real): (r: real)
    ensures lo <= hi ==> lo <= r <= hi
    ensures lo <= x <= hi ==> r == x
    ensures x < lo && lo <= hi ==> r == lo
    ensures hi < x ==> r == hi
  {
    var m := if lo < x then x else lo;
    if hi < m then hi else m
  }

  /** BOOTING, IDLE and ACTIVE have their own slot; every other state shares slot 3. */
  function FsmSlot(state: string): (slot: nat)
    ensures slot < 4
  {
    if state == "BOOTING" then 0
    else if state == "IDLE" then 1
    else if state == "ACTIVE" then 2
    else 3
  }

  function OneHot(state: string): seq<real> {
    seq(4, i requires 0 <= i < 4 => if i == FsmSlot(state) then 1.0 else 0.0)
  }

  /** A missing reading reads as 0. */
  function ReadingOr0(r: Option<real>): real {
    match r
    case Some(v) => v
    case None => 0.0
  }

  function HealthFeatures(b: BiosStatus): seq<real> {
    [ Clamp(ReadingOr0(b.temperature) / 100.0, 0.0, 1.0),
      Clamp(ReadingOr0(b.powerDraw) / 100.0, 0.0, 1.0),
      Clamp(ReadingOr0(b.utilization) / 100.0, 0.0, 1.0) ]
  }

  /** `context.sensor_data or {}`: a missing dictionary behaves as an empty one. */
  function SensorsOrEmpty(s: Option<SensorData>): SensorData {
    match s
    case Some(d) => d
    case None => SensorData(None, None, None, None, None)
  }

  function SensorFeatures(s: SensorData): seq<real> {
    [ Clamp(ReadingOr0(s.distance) / 10.0, 0.0, 1.0),
      Clamp(ReadingOr0(s.velocity) / 5.0, -1.0, 1.0),
      Clamp(ReadingOr0(s.azimuth) / 3.14, -1.0, 1.0),
      Clamp(ReadingOr0(s.hazardScore), 0.0, 1.0) ]
  }

  function HistoryOf(s: SensorData): seq<real> {
    match s.actionHistory
    case Some(h) => h
    case None => []
  }

  /** `hist[-5:]`: the newest five entries, oldest first. */
  function Recent(hist: seq<real>): (r: seq<real>)
    ensures |r| == Min(HistorySlots, |hist|)
    ensures r == hist[|hist| - |r|..]
  {
    hist[|hist| - Min(HistorySlots, |hist|)..]
  }

  function HistoryFeatures(hist: seq<real>): seq<real> {
    var recent := Recent(hist);
    seq(HistorySlots, i requires 0 <= i < HistorySlots =>
      if i < |recent| then Clamp(recent[i] / 10.0, 0.0, 1.0) else 0.0)
  }

  /** The sixteen built entries, in layout order. */
  function BuiltFeatures(ctx: AgentContext): seq<real> {
    var sensor := SensorsOrEmpty(ctx.sensorData);
    OneHot(ctx.fsmState) + HealthFeatures(ctx.biosStatus) + SensorFeatures(sensor)
      + HistoryFeatures(HistoryOf(sensor))
  }

  /** Padding with zeros up to `n`, then keeping the first `n`. */
  function Fit(v: seq<real>, n: nat): seq<real> {
    seq(n, i requires 0 <= i < n => if i < |v| then v[i] else 0.0)
  }

  function FeatureVector(ctx: AgentContext, inDim: nat): seq<real> {
    Fit(BuiltFeatures(ctx), inDim)
  }

  /** Shape (1, window, inDim): `window` copies of the feature vector. */
  function WindowTensor(ctx: AgentContext, window: nat, inDim: nat): seq<seq<seq<real>>> {
    [seq(window, _ => FeatureVector(ctx, inDim))]
  }

  // ----- what the layout guarantees -----

  lemma BuiltLength(ctx: AgentContext)
    ensures |BuiltFeatures(ctx)| == BuiltCount
  {
  }

  /** The vector has exactly `inDim` entries: the built ones, then zeros. */
  lemma FeatureVectorLayout(ctx: AgentContext, inDim: nat)
    ensures |FeatureVector(ctx, inDim)| == inDim
    ensures forall i :: 0 <= i < inDim ==>
      FeatureVector(ctx, inDim)[i] == if i < BuiltCount then BuiltFeatures(ctx)[i] else 0.0
  {
    BuiltLength(ctx);
  }

  /** Slots 0..3 hold a one-hot FSM encoding. */
  lemma FsmOneHot(ctx: AgentContext)
    ensures var v := BuiltFeatures(ctx);
      && v[FsmSlot(ctx.fsmState)] == 1.0
      && (forall i :: 0 <= i < 4 && i != FsmSlot(ctx.fsmState) ==> v[i] == 0.0)
      && v[0] + v[1] + v[2] + v[3] == 1.0
    ensures FsmSlot("BOOTING") == 0 && FsmSlot("IDLE") == 1 && FsmSlot("ACTIVE") == 2
    ensures FsmSlot("ERROR_STATE") == 3 && FsmSlot("SHUTDOWN") == 3
  {
    var v := BuiltFeatures(ctx);
    assert v[..4] == OneHot(ctx.fsmState);
  }

  /**
   * Every built entry lies in [-1, 1]; the health, distance, hazard and history
   * entries lie in [0, 1].
   */
  lemma BuiltFeaturesInRange(ctx: AgentContext)
    ensures var v := BuiltFeatures(ctx);
      |v| == BuiltCount
      && (forall i :: 0 <= i < BuiltCount ==> -1.0 <= v[i] <= 1.0)
      && (forall i :: 0 <= i < BuiltCount && i != 8 && i != 9 ==> 0.0 <= v[i] <= 1.0)
  {
    var sensor := SensorsOrEmpty(ctx.sensorData);
    var hist := HistoryOf(sensor);
    var v := BuiltFeatures(ctx);
    var hf := HistoryFeatures(hist);
    forall i | 0 <= i < HistorySlots ensures 0.0 <= hf[i] <= 1.0 {
      if i < |Recent(hist)| {
      }
    }
    assert v[11..] == hf;
    forall i | 11 <= i < BuiltCount ensures 0.0 <= v[i] <= 1.0 {
      assert v[i] == hf[i - 11];
    }
  }

  /**
   * Slot value `v` for reading `r` scaled by `1 / scale` into `[lo, hi]`: zero when
   * the reading is missing, the scaled reading when it is in range, and the nearer
   * end of the range otherwise.
   */
  ghost predicate ScaledReading(v: real, r: Option<real>, scale: real, lo: real, hi: real)
    requires scale != 0.0
  {
    match r
    case None => v == 0.0
    case Some(x) =>
      && (lo <= x / scale <= hi ==> v == x / scale)
      && (x / scale < lo ==> v == lo)
      && (hi < x / scale ==> v == hi)
  }

  /**
   * Slots 4..6 are temperature, power draw and utilization over 100 in [0, 1];
   * slots 7..10 are distance over 10 in [0, 1], velocity over 5 and azimuth over
   * 3.14 in [-1, 1], and the hazard score in [0, 1].
   */
  lemma ReadingSlots(ctx: AgentContext)
    ensures var v := BuiltFeatures(ctx);
      var b := ctx.biosStatus;
      var s := SensorsOrEmpty(ctx.sensorData);
      && ScaledReading(v[4], b.temperature, 100.0, 0.0, 1.0)
      && ScaledReading(v[5], b.powerDraw, 100.0, 0.0, 1.0)
      && ScaledReading(v[6], b.utilization, 100.0, 0.0, 1.0)
      && ScaledReading(v[7], s.distance, 10.0, 0.0, 1.0)
      && ScaledReading(v[8], s.velocity, 5.0, -1.0, 1.0)
      && ScaledReading(v[9], s.azimuth, 3.14, -1.0, 1.0)
      && ScaledReading(v[10], s.hazardScore, 1.0, 0.0, 1.0)
  {
    var v := BuiltFeatures(ctx);
    var s := SensorsOrEmpty(ctx.sensorData);
    assert v[4..7] == HealthFeatures(ctx.biosStatus);
    assert v[7..11] == SensorFeatures(s);
    assert v[4] == v[4..7][0] && v[5] == v[4..7][1] && v[6] == v[4..7][2];
    assert v[7] == v[7..11][0] && v[8] == v[7..11][1] && v[9] == v[7..11][2] && v[10] == v[7..11][3];
  }

  /**
   * Slots 11..15 hold the newest (at most five) history entries, oldest first,
   * each `clamp(a / 10, 0, 1)`, followed by zeros.
   */
  lemma HistorySlotsLayout(ctx: AgentContext, j: nat)
    requires j < HistorySlots
    ensures var hist := HistoryOf(SensorsOrEmpty(ctx.sensorData));
      var m := Min(HistorySlots, |hist|);
      BuiltFeatures(ctx)[11 + j] == if j < m then Clamp(hist[|hist| - m + j] / 10.0, 0.0, 1.0) else 0.0
  {
    var v := BuiltFeatures(ctx);
    var sensor := SensorsOrEmpty(ctx.sensorData);
    assert v[11 + j] == HistoryFeatures(HistoryOf(sensor))[j];
  }

  /** Without sensor data the sensor and history slots are all zero. */
  lemma MissingSensorDataIsZero(ctx: AgentContext)
    requires ctx.sensorData == None || ctx.sensorData == Some(SensorData(None, None, None, None, None))
    ensures forall i :: 7 <= i < BuiltCount ==> BuiltFeatures(ctx)[i] == 0.0
  {
    var v := BuiltFeatures(ctx);
    assert v[7..11] == [0.0, 0.0, 0.0, 0.0];
    assert v[11..] == HistoryFeatures([]);
    forall i | 7 <= i < BuiltCount ensures v[i] == 0.0 {
      if i < 11 {
        assert v[i] == v[7..11][i - 7];
      } else {
        assert v[i] == v[11..][i - 11];
      }
    }
  }

  lemma PaddedIsFit(features: seq<real>, built: seq<real>, n: nat)
    requires |built| <= |features| && n <= |features|
    requires features[..|built|] == built
    requires forall k :: |built| <= k < |features| ==> features[k] == 0.0
    ensures features[..n] == Fit(built, n)
  {
    forall k | 0 <= k < n ensures features[..n][k] == Fit(built, n)[k] {
      if k < |built| {
        assert features[k] == features[..|built|][k];
      }
    }
  }

  // ----- the extractor -----

  /** The FSM one-hot, written into a zeroed four-slot array. */
  method FsmVector(state: string) returns (v: seq<real>)
    ensures v == OneHot(state)
  {
    var fsmVec := new real[4](_ => 0.0);
    var slot := FsmSlot(state);
    fsmVec[slot] := 1.0;
    assert forall k :: 0 <= k < 4 ==> fsmVec[k] == if k == slot then 1.0 else 0.0;
    v := fsmVec[..];
  }

  /** The history slots: the newest five entries scaled and clamped into a zeroed array. */
  method HistoryVector(hist: seq<real>) returns (v: seq<real>)
    ensures v == HistoryFeatures(hist)
  {
    var recent := hist[|hist| - Min(HistorySlots, |hist|)..];
    var histVec := new real[HistorySlots](_ => 0.0);
    for i := 0 to |recent|
      invariant forall k :: 0 <= k < i ==> histVec[k] == Clamp(recent[k] / 10.0, 0.0, 1.0)
      invariant forall k :: i <= k < HistorySlots ==> histVec[k] == 0.0
    {
      histVec[i] := Clamp(recent[i] / 10.0, 0.0, 1.0);
    }
    v := histVec[..];
  }

  class FeatureExtractor {
    const window: nat
    const inDim: nat

    constructor (window: nat, inDim: nat)
      ensures this.window == window && this.inDim == inDim
    {
      this.window := window;
      this.inDim := inDim;
    }

    /** `extract`: the window tensor of shape (1, window, inDim) and the (1, 6) mask. */
    method Extract(ctx: AgentContext) returns (tensor: seq<seq<seq<real>>>, mask: seq<seq<bool>>)
      ensures tensor == WindowTensor(ctx, window, inDim)
      ensures |tensor| == 1 && |tensor[0]| == window
      ensures forall r :: 0 <= r < window ==> |tensor[0][r]| == inDim
      ensures mask == [MaskRow] && |mask[0]| == 6
    {
      var features: seq<real> := [];

      var fsmVec := FsmVector(ctx.fsmState);
      features := features + fsmVec;

      var bios := ctx.biosStatus;
      features := features + [
        Clamp(ReadingOr0(bios.temperature) / 100.0, 0.0, 1.0),
        Clamp(ReadingOr0(bios.powerDraw) / 100.0, 0.0, 1.0),
        Clamp(ReadingOr0(bios.utilization) / 100.0, 0.0, 1.0)];

      var sensor := SensorsOrEmpty(ctx.sensorData);
      features := features + [
        Clamp(ReadingOr0(sensor.distance) / 10.0, 0.0, 1.0),
        Clamp(ReadingOr0(sensor.velocity) / 5.0, -1.0, 1.0),
        Clamp(ReadingOr0(sensor.azimuth) / 3.14, -1.0, 1.0),
        Clamp(ReadingOr0(sensor.hazardScore), 0.0, 1.0)];

      var histVec := HistoryVector(HistoryOf(sensor));
      features := features + histVec;
      assert features == BuiltFeatures(ctx);

      while |features| < inDim
        invariant |features| >= BuiltCount
        invariant features[..BuiltCount] == BuiltFeatures(ctx)
        invariant forall k :: BuiltCount <= k < |features| ==> features[k] == 0.0
        decreases inDim - |features|
      {
        features := features + [0.0];
      }

      var row := features[..inDim];
      PaddedIsFit(features, BuiltFeatures(ctx), inDim);
      tensor := [seq(window, _ => row)];
      mask := [MaskRow];
    }
  }
}
