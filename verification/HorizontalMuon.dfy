/** The maker for horizontal muons: a sliding window with several triggers. */
module HorizontalMuon {
  import opened TriggerTypes
  import opened SlidingWindows
  import opened TPWindows
  import opened WindowTests
  import opened Activities
  import opened Prescales
  import opened ChannelLists
  import opened Adjacency

  datatype Config = Config(
    triggerOnAdc: bool, triggerOnNChannels: bool, triggerOnAdjacency: bool, triggerOnTot: bool,
    adcThreshold: nat, nChannelsThreshold: nat, adjacencyThreshold: nat, totThreshold: nat,
    adjTolerance: nat, windowLength: Timestamp, prescale: nat)

  /** What the arrival of a primitive calls for. */
  datatype Decision = Collect | Prescaled | Unprescaled | Slide

  /** The decision on a window with the given ADC sum, number of channels and adjacency. */
  function Decide(cfg: Config, within: bool, adc: nat, nChannels: nat, adjacency: nat, tot: nat): Decision {
    if within then Collect
    else if (adc > cfg.adcThreshold && cfg.triggerOnAdc)
         || (nChannels > cfg.nChannelsThreshold && cfg.triggerOnNChannels)
         || (adjacency > cfg.adjacencyThreshold && cfg.triggerOnAdjacency) then Prescaled
    else if cfg.triggerOnTot && tot > cfg.totThreshold then Unprescaled
    else Slide
  }

  /** The decision is the one that the window's contents call for. */
  ghost predicate Decided(d: Decision, cfg: Config, win: TPs, tp: TriggerPrimitive)
    requires win != []
  {
    forall chans, adj: nat :: ListsChannels(chans, win) && IsAdjacency(adj, chans, cfg.adjTolerance) ==>
      d == Decide(cfg, Within(tp.timeStart, win[0].timeStart, cfg.windowLength),
                  Wrap32(AdcSum(win)), |Channels(win)|, adj, tp.timeOverThreshold)
  }

  /** What follows from a decision. A trigger that the prescale drops also drops the primitive: the window
      stays as it was. */
  ghost predicate Acted(d: Decision, cfg: Config, win: TPs, count: nat, tp: TriggerPrimitive,
                        win': TPs, count': nat, tas: seq<TriggerActivity>)
    requires cfg.prescale > 0
  {
    var emits := d.Unprescaled? || (d.Prescaled? && Passes(count', cfg.prescale));
    && count' == (if d.Prescaled? then CountAfter(count, 1) else count)
    && (if emits then |tas| == 1 && IsActivityOver(tas[0], win, true) else tas == [])
    && win' == if emits then [tp] else match d
         case Collect => win + [tp]
         case Slide => Moved(win, tp, cfg.windowLength)
         case _ => win
  }

  // ----- the thresholds, on the window and by brute force

  /** The window is over a threshold, as the code finds it. */
  ghost predicate Trips(cfg: Config, win: TPs) {
    || (Wrap32(AdcSum(win)) > cfg.adcThreshold && cfg.triggerOnAdc)
    || (|Channels(win)| > cfg.nChannelsThreshold && cfg.triggerOnNChannels)
    || (AdjacencyOf(ChannelList(win), cfg.adjTolerance) > cfg.adjacencyThreshold && cfg.triggerOnAdjacency)
  }

  /** The primitives are over a threshold that the maker triggers on. */
  ghost predicate IsOver(cfg: Config, tps: TPs) {
    || (cfg.triggerOnAdc && AdcSum(tps) > cfg.adcThreshold)
    || (cfg.triggerOnNChannels && |Channels(tps)| > cfg.nChannelsThreshold)
    || (cfg.triggerOnAdjacency && AdjacencyOf(ChannelList(tps), cfg.adjTolerance) > cfg.adjacencyThreshold)
  }

  ghost function OverThreshold(cfg: Config): TPs -> bool {
    tps => IsOver(cfg, tps)
  }

  /** They are so far over it that no tolerance matters. */
  ghost predicate IsSurelyOver(cfg: Config, tps: TPs) {
    || (cfg.triggerOnAdc && AdcSum(tps) > cfg.adcThreshold)
    || (cfg.triggerOnNChannels && |Channels(tps)| > cfg.nChannelsThreshold)
    || (cfg.triggerOnAdjacency && cfg.adjacencyThreshold >= 1 && LongStretch(cfg.adjacencyThreshold)(tps))
  }

  ghost function SurelyOver(cfg: Config): TPs -> bool {
    tps => IsSurelyOver(cfg, tps)
  }

  /** The sums of a maker that triggers on them stay within 32 bits. */
  ghost predicate SumsFit(cfg: Config, since: TPs) {
    cfg.triggerOnAdc ==> NoOverflow(since, cfg.windowLength)
  }

  /** The primitive closes the window, and has a long time over threshold that the maker triggers on. */
  ghost predicate LongPulseCloses(cfg: Config, win: TPs, tp: TriggerPrimitive) {
    && win != [] && !Within(tp.timeStart, win[0].timeStart, cfg.windowLength)
    && cfg.triggerOnTot && tp.timeOverThreshold > cfg.totThreshold
  }

  lemma DecidedMeans(d: Decision, cfg: Config, win: TPs, tp: TriggerPrimitive)
    requires win != [] && Decided(d, cfg, win, tp)
    ensures var within := Within(tp.timeStart, win[0].timeStart, cfg.windowLength);
      && (d.Collect? <==> within) && (d.Prescaled? <==> !within && Trips(cfg, win))
      && (d.Unprescaled? <==> !Trips(cfg, win) && LongPulseCloses(cfg, win, tp))
  {
    var chans := ChannelList(win);
    AdjacencyNotNegative(chans, cfg.adjTolerance);
    assert IsAdjacency(AdjacencyOf(chans, cfg.adjTolerance), chans, cfg.adjTolerance);
  }

  lemma AdjacencyNotNegative(d: seq<int>, tol: nat)
    ensures AdjacencyOf(d, tol) >= 0
  {
  }

  lemma OverThresholdIsMonotone(cfg: Config)
    requires cfg.triggerOnAdjacency ==> cfg.adjTolerance == 0
    ensures Monotone(OverThreshold(cfg))
  {
    hide AdcSum, Channels, AdjacencyOf;
    HeavyIsMonotone(cfg.adcThreshold);
    ManyChannelsIsMonotone(cfg.nChannelsThreshold);
    HighAdjacencyIsMonotone(cfg.adjacencyThreshold);
    forall a, b, c | OverThreshold(cfg)(b)
      ensures OverThreshold(cfg)(a + b + c)
    {
      assert Heavy(cfg.adcThreshold)(b) ==> Heavy(cfg.adcThreshold)(a + b + c);
      assert ManyChannels(cfg.nChannelsThreshold)(b) ==> ManyChannels(cfg.nChannelsThreshold)(a + b + c);
      var high := HighAdjacency(cfg.adjacencyThreshold, 0);
      assert high(b) ==> high(a + b + c);
    }
  }

  lemma SurelyOverIsMonotone(cfg: Config)
    ensures Monotone(SurelyOver(cfg))
  {
    hide AdcSum, Channels, LongStretch;
    HeavyIsMonotone(cfg.adcThreshold);
    ManyChannelsIsMonotone(cfg.nChannelsThreshold);
    LongStretchIsMonotone(cfg.adjacencyThreshold);
    forall a, b, c | SurelyOver(cfg)(b)
      ensures SurelyOver(cfg)(a + b + c)
    {
      assert Heavy(cfg.adcThreshold)(b) ==> Heavy(cfg.adcThreshold)(a + b + c);
      assert ManyChannels(cfg.nChannelsThreshold)(b) ==> ManyChannels(cfg.nChannelsThreshold)(a + b + c);
      var long := LongStretch(cfg.adjacencyThreshold);
      assert long(b) ==> long(a + b + c);
    }
  }

  lemma SurelyOverIsOver(cfg: Config)
    ensures Implies(SurelyOver(cfg), OverThreshold(cfg))
  {
    hide AdcSum, Channels, LongStretch, AdjacencyOf;
    forall tps | SurelyOver(cfg)(tps)
      ensures OverThreshold(cfg)(tps)
    {
      if cfg.adjacencyThreshold >= 1 && LongStretch(cfg.adjacencyThreshold)(tps) {
        LongStretchIsAdjacent(cfg.adjacencyThreshold, cfg.adjTolerance, tps);
        assert HighAdjacency(cfg.adjacencyThreshold, cfg.adjTolerance)(tps);
      }
    }
  }

  lemma SumsFitBefore(cfg: Config, since: TPs, tp: TriggerPrimitive)
    ensures SumsFit(cfg, since + [tp]) ==> SumsFit(cfg, since)
  {
    NoOverflowBefore(since, tp, cfg.windowLength);
  }

  lemma TripsOver(cfg: Config, since: TPs)
    requires since != [] && SumsFit(cfg, since)
    ensures var w := WindowAfter(since, cfg.windowLength); Trips(cfg, w) <==> OverThreshold(cfg)(w)
  {
    hide WindowAfter, AdcSum, Channels, Wrap32;
    var w := WindowAfter(since, cfg.windowLength);
    if cfg.triggerOnAdc {
      SumFits(since, cfg.windowLength);
    }
  }

  lemma NothingToClose(cfg: Config, tp: TriggerPrimitive)
    ensures !LongPulseCloses(cfg, [], tp)
  {
  }

  lemma ActedExactly(d: Decision, cfg: Config, win: TPs, count: nat, tp: TriggerPrimitive,
                     win': TPs, count': nat, tas: seq<TriggerActivity>)
    requires cfg.prescale > 0 && Acted(d, cfg, win, count, tp, win', count', tas)
    ensures count' == if d.Prescaled? then CountAfter(count, 1) else count
    ensures tas != [] ==> win' == [tp] && (d.Prescaled? || d.Unprescaled?)
    ensures d.Unprescaled? || (d.Prescaled? && cfg.prescale == 1) ==> tas != []
    ensures d.Collect? ==> win' == win + [tp]
    ensures d.Slide? ==> win' == Moved(win, tp, cfg.windowLength)
  {
  }

  /** There is a trigger only if an interval is over a threshold or a long pulse closes the window, and always if an
      interval is surely over one or a long pulse closes the window. */
  ghost predicate Bracketed(cfg: Config, since: TPs, win: TPs, tp: TriggerPrimitive, triggers: bool) {
    && (triggers ==>
          || HeavyIntervalClosed(since, tp, cfg.windowLength, OverThreshold(cfg))
          || LongPulseCloses(cfg, win, tp))
    && (HeavyIntervalClosed(since, tp, cfg.windowLength, SurelyOver(cfg)) || LongPulseCloses(cfg, win, tp) ==> triggers)
  }

  lemma NeverBracketed(cfg: Config, tp: TriggerPrimitive)
    ensures Bracketed(cfg, [], [], tp, false)
  {
  }

  lemma FiresInBetween(cfg: Config, since: TPs, tp: TriggerPrimitive)
    requires since != [] && cfg.windowLength > 0 && InTimeOrder(since + [tp])
    requires Quiet(since, cfg.windowLength, OverThreshold(cfg))
    ensures var fires := Fires(WindowAfter(since, cfg.windowLength), tp, cfg.windowLength, OverThreshold(cfg));
      && (fires ==> HeavyIntervalClosed(since, tp, cfg.windowLength, OverThreshold(cfg)))
      && (HeavyIntervalClosed(since, tp, cfg.windowLength, SurelyOver(cfg)) ==> fires)
  {
    hide OverThreshold, SurelyOver, Quiet, Fires, WindowAfter, HeavyIntervalClosed, InTimeOrder;
    if Fires(WindowAfter(since, cfg.windowLength), tp, cfg.windowLength, OverThreshold(cfg)) {
      FiresSoundly(since, tp, cfg.windowLength, OverThreshold(cfg));
    }
    if HeavyIntervalClosed(since, tp, cfg.windowLength, SurelyOver(cfg)) {
      SurelyOverIsMonotone(cfg);
      SurelyOverIsOver(cfg);
      SureIntervalFires(since, tp, cfg.windowLength, SurelyOver(cfg), OverThreshold(cfg));
    }
  }

  class TriggerActivityMakerHorizontalMuon {
    const cfg: Config
    const window: TPWindow
    var taCount: nat

    /** The primitives since the last activity, or since the first primitive. */
    ghost var since: TPs
    /** The last decision taken; how many of all decisions called for a trigger subject to the prescale, and how
        many of those triggers made an activity. */
    ghost var decision: Decision
    ghost var triggered: nat
    ghost var passed: nat

    /** The maker drops no trigger, and gives adjacency no tolerance if it triggers on it. */
    ghost predicate IsExact() {
      cfg.prescale == 1 && (cfg.triggerOnAdjacency ==> cfg.adjTolerance == 0)
    }

    ghost predicate Valid()
      reads this, window
    {
      && window.Valid() && cfg.prescale > 0 && Tallies(triggered, passed, taCount, cfg.prescale)
      && (cfg.prescale == 1 ==>
           && window.inputs == (if since == [] then [] else WindowAfter(since, cfg.windowLength))
           && (SumsFit(cfg, since) ==> Quiet(since, cfg.windowLength, OverThreshold(cfg))))
    }

    constructor (cfg: Config)
      requires cfg.prescale > 0
      ensures Valid() && fresh(window) && this.cfg == cfg && window.inputs == [] && since == [] && triggered == 0
    {
      this.cfg := cfg;
      window := new TPWindow();
      taCount, since, decision, triggered, passed := 0, [], Collect, 0, 0;
    }

    method ConstructTA() returns (ta: TriggerActivity)
      requires window.Valid() && window.inputs != []
      ensures IsActivityOver(ta, window.inputs, true)
    {
      ta := Construct(window.inputs, window.adcIntegral, true);
    }

    method DecideOn(tp: TriggerPrimitive) returns (d: Decision)
      requires window.Valid() && window.inputs != [] && |window.inputs| < TWO_16
      ensures Decided(d, cfg, window.inputs, tp)
    {
      SmallWindowFits(window.inputs);
      if Within(tp.timeStart, window.timeStart, cfg.windowLength) {
        return Collect;
      }
      if window.adcIntegral > cfg.adcThreshold && cfg.triggerOnAdc {
        return Prescaled;
      }
      var n := window.NChannelsHit();
      if n > cfg.nChannelsThreshold && cfg.triggerOnNChannels {
        return Prescaled;
      }
      var adjacency := CheckAdjacency(window.inputs, cfg.adjTolerance);
      if adjacency > cfg.adjacencyThreshold && cfg.triggerOnAdjacency {
        return Prescaled;
      }
      if cfg.triggerOnTot && tp.timeOverThreshold > cfg.totThreshold {
        return Unprescaled;
      }
      d := Slide;
    }

    method Act(tp: TriggerPrimitive, d: Decision) returns (tas: seq<TriggerActivity>)
      requires window.Valid() && window.inputs != [] && |window.inputs| + 1 < TWO_16 && cfg.prescale > 0
      modifies this`taCount, window
      ensures window.Valid()
      ensures Acted(d, cfg, old(window.inputs), old(taCount), tp, window.inputs, taCount, tas)
    {
      hide Wrap32, AdcSum, Counts, CountsFit, IsActivityOver, Passes, CountAfter, Moved;
      SmallWindowFits(window.inputs + [tp]);
      tas := [];
      match d
      case Collect =>
        window.Add(tp);
      case Prescaled =>
        taCount := CountAfter(taCount, 1);
        if Passes(taCount, cfg.prescale) {
          var ta := ConstructTA();
          tas := [ta];
          window.Reset(tp);
        }
      case Unprescaled =>
        var ta := ConstructTA();
        tas := [ta];
        window.Reset(tp);
      case Slide =>
        window.Move(tp, cfg.windowLength);
    }

    /** Takes in one primitive. A maker that drops no trigger, with any of its triggers on, makes an activity, for
        primitives in time order, only when some interval of the window length, starting at a primitive since the
        last activity, is over and over a threshold, or when this primitive closes the window and has a long time
        over threshold. It always does in the second case, and in the first if adjacency has no tolerance. With
        tolerance it does if the interval is over another threshold, or has a stretch of consecutive channels longer
        than that for adjacency. */
    method Process(tp: TriggerPrimitive) returns (tas: seq<TriggerActivity>)
      requires Valid() && |window.inputs| + 1 < TWO_16
      modifies this, window
      ensures Valid()
      ensures old(window.inputs) == [] ==>
        tas == [] && window.inputs == [tp] && taCount == old(taCount) && decision.Collect?
      ensures old(window.inputs) != [] ==> Decided(decision, cfg, old(window.inputs), tp)
      ensures old(window.inputs) != [] ==>
        Acted(decision, cfg, old(window.inputs), old(taCount), tp, window.inputs, taCount, tas)
      ensures triggered == old(triggered) + if decision.Prescaled? then 1 else 0
      ensures passed == old(passed) + if decision.Prescaled? && tas != [] then 1 else 0
      ensures decision.Prescaled? ==> (tas != [] <==> IsPrescaleth(triggered, cfg.prescale))
      ensures tas != [] ==> tas[0].inputs == old(window.inputs) && EndsLast(tas[0], old(window.inputs))
      ensures since == if tas != [] || old(window.inputs) == [] then [tp] else old(since) + [tp]
      ensures IsExact() && SumsFit(cfg, old(since)) && cfg.windowLength > 0 && InTimeOrder(old(since) + [tp]) ==>
        (tas != [] <==>
          || HeavyIntervalClosed(old(since), tp, cfg.windowLength, OverThreshold(cfg))
          || LongPulseCloses(cfg, old(window.inputs), tp))
      ensures cfg.prescale == 1 && SumsFit(cfg, old(since)) && cfg.windowLength > 0 &&
              InTimeOrder(old(since) + [tp]) ==>
        Bracketed(cfg, old(since), old(window.inputs), tp, tas != [])
    {
      hide Quiet, WindowAfter, HeavyIntervalClosed, InTimeOrder, Decided, Acted, Moved, SumsFit;
      hide LongPulseCloses, OverThreshold, SurelyOver, Bracketed, TPWindow.Aggregates, EndsLast, IsActivityOver;
      hide Tallies;
      QuietStart(tp, cfg.windowLength, OverThreshold(cfg));
      NeverBracketed(cfg, tp);
      if window.inputs == [] {
        NothingToClose(cfg, tp);
        window.Reset(tp);
        tas := [];
        since, decision := [tp], Collect;
        return;
      }
      ghost var win := window.inputs;
      var d := DecideOn(tp);
      if cfg.prescale == 1 {
        FiresExactly(tp, d);
      }
      tas := Act(tp, d);
      ActedExactly(d, cfg, win, old(taCount), tp, window.inputs, taCount, tas);
      TriggerIsCounted(d, triggered, passed, old(taCount), tas, win, tp);
      decision := d;
      if d.Prescaled? {
        triggered, passed := triggered + 1, passed + if tas != [] then 1 else 0;
      }
      since := if tas != [] then [tp] else since + [tp];
    }

    /** What one decision does to the counts, and to the activity. */
    lemma TriggerIsCounted(d: Decision, n: nat, k: nat, count: nat, tas: seq<TriggerActivity>, win: TPs,
                           tp: TriggerPrimitive)
      requires cfg.prescale > 0 && Tallies(n, k, count, cfg.prescale)
      requires Acted(d, cfg, win, count, tp, window.inputs, taCount, tas)
      ensures tas != [] ==> tas[0].inputs == win && EndsLast(tas[0], win)
      ensures !d.Prescaled? ==> Tallies(n, k, taCount, cfg.prescale)
      ensures d.Prescaled? ==>
        && (tas != [] <==> IsPrescaleth(n + 1, cfg.prescale))
        && Tallies(n + 1, k + if tas != [] then 1 else 0, taCount, cfg.prescale)
    {
      TallyOneMore(n, k, count, cfg.prescale);
      hide CountAfter, Passes, Tallies, IsPrescaleth, EndsLast;
      if tas != [] {
        SpansEnd(tas[0], win);
      }
    }

    /** The decision on an arrival is the trigger on the window, which is brute force. */
    lemma FiresExactly(tp: TriggerPrimitive, d: Decision)
      requires Valid() && cfg.prescale == 1 && since != [] && Decided(d, cfg, window.inputs, tp)
      ensures var w, length := window.inputs, cfg.windowLength; var triggers := d.Prescaled? || d.Unprescaled?;
        && (d.Collect? ==> WindowAfter(since + [tp], length) == w + [tp])
        && (d.Slide? ==> WindowAfter(since + [tp], length) == Moved(w, tp, length))
        && (!triggers && SumsFit(cfg, since + [tp]) ==> Quiet(since + [tp], length, OverThreshold(cfg)))
        && (IsExact() && SumsFit(cfg, since) && length > 0 && InTimeOrder(since + [tp]) ==>
             (triggers <==> HeavyIntervalClosed(since, tp, length, OverThreshold(cfg)) || LongPulseCloses(cfg, w, tp)))
        && (SumsFit(cfg, since) && length > 0 && InTimeOrder(since + [tp]) ==>
             Bracketed(cfg, since, w, tp, triggers))
    {
      var length, heavy := cfg.windowLength, OverThreshold(cfg);
      hide Quiet, WindowAfter, HeavyIntervalClosed, InTimeOrder, Moved;
      DecidedMeans(d, cfg, window.inputs, tp);
      hide Decided;
      QuietGrows(since, tp, length, heavy);
      SumsFitBefore(cfg, since, tp);
      if SumsFit(cfg, since) {
        TripsOver(cfg, since);
        hide SumsFit, OverThreshold, Trips;
        if length > 0 && InTimeOrder(since + [tp]) {
          if IsExact() {
            OverThresholdIsMonotone(cfg);
            TriggerMissesNothing(since, tp, length, heavy);
          }
          FiresInBetween(cfg, since, tp);
        }
      }
    }
  }
}
