/** The jitter buffer of src/jitterbuffer.hpp: frames wait in order of their sequence numbers until they are played. */
module JitterBuffer {

  datatype Option<T> = None | Some(value: T)

  const MINIMAL_SIZE := 5
  const MAX_SIZE := 32

  /** The greatest sequence number. Playing the frame that bears it wraps the play position around. */
  const MAX_SEQUENCE := 0xFFFF_FFFF_FFFF_FFFF

  /** What the fields hold: the play position, the frames held, and whether playing has begun. */
  datatype State<T> = State(sequence: nat, held: map<nat, T>, primed: bool)

  // ----- The frames held

  /** The smallest key of a map: std::map's begin(). */
  ghost predicate Smallest<T>(m: map<nat, T>, k: nat) {
    k in m && forall j :: j in m ==> k <= j
  }

  lemma HasSmallest<T>(m: map<nat, T>, k: nat)
    requires k in m
    ensures exists j :: Smallest(m, j)
    decreases k
  {
    if !Smallest(m, k) {
      var j :| j in m && j < k;
      HasSmallest(m, j);
    }
  }

  ghost function First<T>(m: map<nat, T>): (k: nat)
    requires m != map[]
    ensures Smallest(m, k)
  {
    var j :| j in m;
    HasSmallest(m, j);
    var k :| Smallest(m, k);
    k
  }

  /** begin() on a map that is not empty. */
  method Begin<T>(m: map<nat, T>) returns (k: nat)
    requires m != map[]
    ensures k == First(m)
  {
    k :| k in m;
    var rest := m.Keys - {k};
    while rest != {}
      invariant rest <= m.Keys
      invariant k in m && forall j :: j in m && j !in rest ==> k <= j
      decreases |rest|
    {
      var j :| j in rest;
      if j < k {
        k := j;
      }
      rest := rest - {j};
    }
    assert Smallest(m, k);
  }

  function Without<T>(m: map<nat, T>, k: nat): (r: map<nat, T>)
    ensures k in m ==> |r| == |m| - 1
    ensures forall j :: j in r <==> j in m && j != k
    ensures forall j :: j in r ==> r[j] == m[j]
  {
    var r := map j | j in m && j != k :: m[j];
    assert r.Keys == m.Keys - {k};
    r
  }

  /** try_emplace: a number that is there already keeps its frame. */
  function Emplaced<T>(m: map<nat, T>, k: nat, v: T): (r: map<nat, T>)
    ensures |r| == if k in m then |m| else |m| + 1
  {
    if k in m then m
    else
      assert m[k := v].Keys == m.Keys + {k};
      m[k := v]
  }

  // ----- One call

  ghost function Pushed<T>(s: State<T>, k: nat, v: T): State<T> {
    if s.sequence > k then s
    else if |s.held| >= MAX_SIZE then s.(held := Emplaced(Without(s.held, First(s.held)), k, v))
    else
      var held := Emplaced(s.held, k, v);
      s.(held := held, primed := s.primed || |held| >= MINIMAL_SIZE)
  }

  ghost function Popped<T>(s: State<T>): State<T> {
    if !s.primed then s
    else if s.held == map[] then s.(primed := false)
    else State((First(s.held) + 1) % (MAX_SEQUENCE + 1), Without(s.held, First(s.held)), true)
  }

  /** What every reachable state satisfies. */
  ghost predicate ValidState<T>(s: State<T>) {
    && |s.held| <= MAX_SIZE && (|s.held| >= MINIMAL_SIZE ==> s.primed)
    && s.sequence <= MAX_SEQUENCE && forall k :: k in s.held ==> s.sequence <= k <= MAX_SEQUENCE
  }

  // ----- Runs

  datatype Event<T> = Push(number: nat, data: T) | Pop

  type Frame<T> = (nat, T)

  /** A state with its history: the frames accepted, played and dropped for lack of room. */
  datatype Run<T> = Run(state: State<T>, accepted: seq<Frame<T>>, played: seq<Frame<T>>, dropped: seq<Frame<T>>)

  function Start<T>(start: nat): Run<T> {
    Run(State(start, map[], false), [], [], [])
  }

  ghost function Next<T>(r: Run<T>, e: Event<T>): Run<T> {
    var s := r.state;
    match e
    case Push(k, v) =>
      var room := |s.held| < MAX_SIZE;
      var kept := if room then s.held else Without(s.held, First(s.held));
      if s.sequence > k then r
      else Run(Pushed(s, k, v),
               if k in kept then r.accepted else r.accepted + [(k, v)],
               r.played,
               if room then r.dropped else r.dropped + [(First(s.held), s.held[First(s.held)])])
    case Pop =>
      Run(Popped(s), r.accepted,
          if s.primed && s.held != map[] then r.played + [(First(s.held), s.held[First(s.held)])] else r.played,
          r.dropped)
  }

  ghost function RunOf<T>(start: nat, events: seq<Event<T>>): Run<T> {
    if events == [] then Start(start) else Next(RunOf(start, events[..|events| - 1]), events[|events| - 1])
  }

  ghost function Frames<T>(m: map<nat, T>): set<Frame<T>> {
    set k | k in m :: (k, m[k])
  }

  /** Every frame accepted was played, was dropped or is still held, each just once. */
  ghost predicate Conserved<T>(r: Run<T>) {
    multiset(r.accepted) == multiset(r.played) + multiset(r.dropped) + multiset(Frames(r.state.held))
  }

  /** The numbers played increase strictly, so that none is played twice. */
  ghost predicate Increasing<T>(r: Run<T>) {
    forall i, j :: 0 <= i < j < |r.played| ==> r.played[i].0 < r.played[j].0
  }

  /** ... and all lie before the play position. */
  ghost predicate InOrder<T>(r: Run<T>) {
    Increasing(r) && forall i :: 0 <= i < |r.played| ==> r.played[i].0 < r.state.sequence
  }

  /** No frame with the greatest sequence number has been played. */
  ghost predicate LastUnplayed<T>(r: Run<T>) {
    forall i :: 0 <= i < |r.played| ==> r.played[i].0 != MAX_SEQUENCE
  }

  /** ... but perhaps by the last pop that played a frame. */
  ghost predicate LastUnpassed<T>(r: Run<T>) {
    forall i :: 0 <= i < |r.played| - 1 ==> r.played[i].0 != MAX_SEQUENCE
  }

  /** How far order is kept: exactly so far. */
  ghost predicate Ordered<T>(r: Run<T>) {
    (InOrder(r) <==> LastUnplayed(r)) && (Increasing(r) <==> LastUnpassed(r))
  }

  /** Sequence numbers have 64 bits. */
  ghost predicate Numbers<T>(start: nat, events: seq<Event<T>>) {
    start <= MAX_SEQUENCE && forall i :: 0 <= i < |events| && events[i].Push? ==> events[i].number <= MAX_SEQUENCE
  }

  lemma FramesWithout<T>(m: map<nat, T>, k: nat)
    requires k in m
    ensures multiset(Frames(m)) == multiset(Frames(Without(m, k))) + multiset{(k, m[k])}
  {
    var w := Without(m, k);
    assert Frames(m) == Frames(w) + {(k, m[k])};
    assert (k, m[k]) !in Frames(w);
  }

  lemma FramesEmplaced<T>(m: map<nat, T>, k: nat, v: T)
    requires k !in m
    ensures multiset(Frames(Emplaced(m, k, v))) == multiset(Frames(m)) + multiset{(k, v)}
  {
    var e := Emplaced(m, k, v);
    assert forall j :: j in m ==> j in e && e[j] == m[j];
    assert k in e && e[k] == v;
    assert (k, e[k]) in Frames(e);
    assert Frames(e) == Frames(m) + {(k, v)};
  }

  lemma PushConserves<T>(r: Run<T>, k: nat, v: T)
    requires Conserved(r)
    ensures Conserved(Next(r, Push(k, v)))
  {
    var held, kept := r.state.held, r.state.held;
    if r.state.sequence <= k {
      var dropped := r.dropped;
      if |held| >= MAX_SIZE {
        FramesWithout(held, First(held));
        kept := Without(held, First(held));
        dropped := dropped + [(First(held), held[First(held)])];
      }
      assert multiset(r.accepted) == multiset(r.played) + multiset(dropped) + multiset(Frames(kept));
      if k !in kept {
        FramesEmplaced(kept, k, v);
      }
      assert Next(r, Push(k, v)).state.held == Emplaced(kept, k, v);
    }
  }

  lemma PopConserves<T>(r: Run<T>)
    requires Conserved(r)
    ensures Conserved(Next(r, Pop))
  {
    if r.state.primed && r.state.held != map[] {
      FramesWithout(r.state.held, First(r.state.held));
    }
  }

  lemma PopKeepsValid<T>(r: Run<T>)
    requires ValidState(r.state)
    ensures ValidState(Next(r, Pop).state)
  {
    var s := r.state;
    if s.primed && s.held != map[] {
      assert s.sequence <= First(s.held) <= MAX_SEQUENCE;
    }
  }

  /** Order is kept by playing a frame, unless it or an earlier one bears the greatest sequence number. */
  lemma PopOrder<T>(r: Run<T>)
    requires ValidState(r.state) && Ordered(r)
    ensures Ordered(Next(r, Pop))
  {
    var s, t := r.state, Next(r, Pop);
    if s.primed && s.held != map[] {
      var k, n := First(s.held), |r.played|;
      assert s.sequence <= k <= MAX_SEQUENCE && t.state.sequence <= MAX_SEQUENCE;
      assert t.played[n].0 == k && t.played[..n] == r.played;
      PlayedOrder(r.played, t.played, k);
      if LastUnplayed(r) {
        assert InOrder(r);
      } else {
        var i :| 0 <= i < n && r.played[i].0 == MAX_SEQUENCE;
        assert t.played[i].0 == MAX_SEQUENCE && !(t.played[i].0 < t.played[n].0);
      }
      if k == MAX_SEQUENCE {
        assert !(t.played[n].0 < t.state.sequence);
      }
    }
  }

  lemma PlayedOrder<T>(before: seq<Frame<T>>, after: seq<Frame<T>>, k: nat)
    requires |after| == |before| + 1 && after[..|before|] == before && after[|before|].0 == k
    ensures forall i :: 0 <= i < |before| ==> after[i].0 == before[i].0
  {
    assert forall i :: 0 <= i < |before| ==> after[i] == after[..|before|][i];
  }

  lemma PushKeepsValid<T>(s: State<T>, k: nat, v: T)
    requires ValidState(s) && k <= MAX_SEQUENCE
    ensures ValidState(Pushed(s, k, v))
  {
  }

  /** One event keeps the bounds, the books, and the order as far as it can be kept. */
  lemma NextKeeps<T>(r: Run<T>, e: Event<T>)
    requires ValidState(r.state) && Conserved(r) && Ordered(r)
    requires e.Push? ==> e.number <= MAX_SEQUENCE
    ensures ValidState(Next(r, e).state) && Conserved(Next(r, e)) && Ordered(Next(r, e))
  {
    match e
    case Push(k, v) =>
      PushConserves(r, k, v);
      PushKeepsValid(r.state, k, v);
      assert Next(r, e).state == Pushed(r.state, k, v);
      assert Next(r, e).played == r.played && Next(r, e).state.sequence == r.state.sequence;
    case Pop =>
      PopConserves(r);
      PopKeepsValid(r);
      PopOrder(r);
  }

  /**
   Over every run: never more than 32 frames wait, five of them are enough to start playing, nothing before the play
   position is held; and every frame accepted has been played, has been dropped, or waits. The numbers played increase
   strictly, so that none is played twice, if and only if no frame before the last one played bears the greatest
   sequence number; moreover they lie before the play position if and only if no frame played bears it.
   */
  lemma {:induction false} EveryRun<T>(start: nat, events: seq<Event<T>>)
    requires Numbers(start, events)
    ensures ValidState(RunOf(start, events).state)
    ensures Conserved(RunOf(start, events))
    ensures Increasing(RunOf(start, events)) <==> LastUnpassed(RunOf(start, events))
    ensures InOrder(RunOf(start, events)) <==> LastUnplayed(RunOf(start, events))
  {
    if events != [] {
      var last := |events| - 1;
      EveryRun(start, events[..last]);
      NextKeeps(RunOf(start, events[..last]), events[last]);
    }
  }

  lemma {:induction false} PrimedByFive<T>(start: nat, events: seq<Event<T>>)
    requires Numbers(start, events)
    ensures var r := RunOf(start, events); r.state.primed || r.played != [] ==> |r.accepted| >= MINIMAL_SIZE
  {
    if events != [] {
      var last := |events| - 1;
      PrimedByFive(start, events[..last]);
      EveryRun(start, events);
      var r := RunOf(start, events);
      assert |r.accepted| == |multiset(r.accepted)| && |r.state.held| <= |r.accepted| by {
        FrameCount(r.state.held);
      }
    }
  }

  lemma {:induction false} FrameCount<T>(m: map<nat, T>)
    ensures |Frames(m)| == |m|
    decreases |m|
  {
    if m != map[] {
      var k :| k in m;
      var w := Without(m, k);
      FrameCount(w);
      assert Frames(m) == Frames(w) + {(k, m[k])};
      assert (k, m[k]) !in Frames(w);
    } else {
      assert Frames(m) == {};
    }
  }

  // ----- Frames one after the other

  /** Frames pushed in order, and j times one popped. */
  function Stream<T>(start: nat, data: seq<T>, j: nat): seq<Event<T>> {
    seq(|data|, i requires 0 <= i < |data| => Push(start + i, data[i])) + seq(j, i requires 0 <= i < j => Pop)
  }

  lemma StreamPushes<T>(start: nat, data: seq<T>, v: T)
    ensures Stream(start, data + [v], 0) == Stream(start, data, 0) + [Push(start + |data|, v)]
  {
  }

  lemma StreamPops<T>(start: nat, data: seq<T>, j: nat)
    ensures Stream(start, data, j + 1) == Stream(start, data, j) + [Pop]
  {
  }

  lemma RunLast<T>(start: nat, events: seq<Event<T>>, e: Event<T>)
    ensures RunOf(start, events + [e]) == Next(RunOf(start, events), e)
  {
    assert (events + [e])[..|events|] == events;
  }

  /** The frames from j on are held, each with its own data. */
  ghost predicate Holding<T>(m: map<nat, T>, start: nat, data: seq<T>, j: nat) {
    && (forall k :: k in m <==> start + j <= k < start + |data|)
    && (forall k :: k in m ==> m[k] == data[k - start])
  }

  lemma {:induction false} KeyCount<T>(m: map<nat, T>, a: nat, b: nat)
    requires a <= b && forall k :: k in m <==> a <= k < b
    ensures |m| == b - a
    decreases b - a
  {
    if a == b {
      assert m == map[];
    } else {
      KeyCount(Without(m, a), a + 1, b);
    }
  }

  /** How many of n frames pushed in order are dropped for lack of room. */
  function Surplus(n: nat): nat {
    if n <= MAX_SIZE then 0 else n - MAX_SIZE
  }

  /** After the pushes: the last frames are held, as many as fit. */
  ghost predicate Filled<T>(r: Run<T>, start: nat, data: seq<T>) {
    && Holding(r.state.held, start, data, Surplus(|data|)) && r.state.sequence == start && r.played == []
    && (r.state.primed <==> |data| >= MINIMAL_SIZE) && |r.dropped| == Surplus(|data|)
  }

  ghost function Fill<T>(start: nat, data: seq<T>): Run<T> {
    if data == [] then Start(start)
    else Next(Fill(start, data[..|data| - 1]), Push(start + |data| - 1, data[|data| - 1]))
  }

  lemma {:induction false} FillIs<T>(start: nat, data: seq<T>)
    ensures RunOf(start, Stream(start, data, 0)) == Fill(start, data)
  {
    if data != [] {
      var before, v := data[..|data| - 1], data[|data| - 1];
      assert before + [v] == data;
      FillIs(start, before);
      StreamPushes(start, before, v);
      RunLast(start, Stream(start, before, 0), Push(start + |before|, v));
    } else {
      assert Stream(start, data, 0) == [];
    }
  }

  lemma {:induction false} AllPushed<T>(start: nat, data: seq<T>)
    ensures Filled(Fill(start, data), start, data)
  {
    if data != [] {
      var before, v := data[..|data| - 1], data[|data| - 1];
      AllPushed(start, before);
      FilledLast(Fill(start, before), Fill(start, data), start, before, v, data);
    } else {
      FilledFirst(start, data);
    }
  }

  lemma FilledFirst<T>(start: nat, data: seq<T>)
    requires data == []
    ensures Filled(Start(start), start, data)
  {
  }

  lemma FilledLast<T>(r: Run<T>, t: Run<T>, start: nat, before: seq<T>, v: T, data: seq<T>)
    requires Filled(r, start, before) && t == Next(r, Push(start + |before|, v)) && data == before + [v]
    ensures Filled(t, start, data)
  {
    var first := start + Surplus(|before|);
    HoldingFirst(r.state.held, start, before, Surplus(|before|));
    PushNext(r, first, start + |before|, v);
    FilledBy(r, t, start, before, v, first, data);
  }

  lemma HoldingFirst<T>(m: map<nat, T>, start: nat, data: seq<T>, j: nat)
    requires Holding(m, start, data, j) && j <= |data|
    ensures |m| == |data| - j && (j < |data| ==> m != map[] && First(m) == start + j)
  {
    KeyCount(m, start + j, start + |data|);
    if j < |data| {
      assert start + j in m;
    }
  }

  /** The run t is the run r and a frame k that is not late. */
  ghost predicate Entered<T>(r: Run<T>, t: Run<T>, first: nat, k: nat, v: T) {
    var m := r.state.held;
    && t.played == r.played && t.state.sequence == r.state.sequence
    && (if |m| < MAX_SIZE then
          && t.state.held == Emplaced(m, k, v) && t.dropped == r.dropped
          && t.state.primed == (r.state.primed || |Emplaced(m, k, v)| >= MINIMAL_SIZE)
        else
          && first in m && t.dropped == r.dropped + [(first, m[first])]
          && t.state.held == Emplaced(Without(m, first), k, v) && t.state.primed == r.state.primed)
  }

  lemma PushNext<T>(r: Run<T>, first: nat, k: nat, v: T)
    requires r.state.sequence <= k
    requires |r.state.held| >= MAX_SIZE ==> r.state.held != map[] && First(r.state.held) == first
    ensures Entered(r, Next(r, Push(k, v)), first, k, v)
  {
  }

  lemma FilledBy<T>(r: Run<T>, t: Run<T>, start: nat, before: seq<T>, v: T, first: nat, data: seq<T>)
    requires Filled(r, start, before) && first == start + Surplus(|before|) && data == before + [v]
    requires |r.state.held| == |before| - Surplus(|before|) && Entered(r, t, first, start + |before|, v)
    ensures Filled(t, start, data)
  {
    var m, d := r.state.held, Surplus(|before|);
    if |before| < MAX_SIZE {
      HoldingNext(m, start, before, v, d);
    } else {
      HoldingNext(Without(m, first), start, before, v, d + 1);
    }
  }

  lemma HoldingNext<T>(m: map<nat, T>, start: nat, before: seq<T>, v: T, j: nat)
    requires j <= |before| && Holding(m, start, before, j)
    ensures Holding(Emplaced(m, start + |before|, v), start, before + [v], j)
  {
  }

  /** After j of the pops: j of the frames held have been played, in order, with their data. */
  ghost predicate Drained<T>(r: Run<T>, start: nat, data: seq<T>, j: nat) {
    var d := Surplus(|data|);
    && d + j <= |data| && Holding(r.state.held, start, data, d + j) && r.state.primed && |r.played| == j
    && (forall i :: 0 <= i < j ==> r.played[i] == (start + d + i, data[d + i])) && |r.dropped| == d
    && r.state.sequence == if j == 0 then start else (start + d + j) % (MAX_SEQUENCE + 1)
  }

  /**
   Five frames or more, pushed in order, are played in order, with their data: of up to 32 none is missing, of more
   just the last 32 are played.
   */
  lemma {:induction false} AllPlayed<T>(start: nat, data: seq<T>, j: nat)
    requires MINIMAL_SIZE <= |data| && Surplus(|data|) + j <= |data|
    ensures Drained(RunOf(start, Stream(start, data, j)), start, data, j)
  {
    if j == 0 {
      FillIs(start, data);
      AllPushed(start, data);
    } else {
      AllPlayed(start, data, j - 1);
      StreamPops(start, data, j - 1);
      RunLast(start, Stream(start, data, j - 1), Pop);
      DrainedNext(RunOf(start, Stream(start, data, j - 1)), start, data, j - 1);
    }
  }

  lemma DrainedNext<T>(r: Run<T>, start: nat, data: seq<T>, j: nat)
    requires Surplus(|data|) + j < |data| && Drained(r, start, data, j)
    ensures Drained(Next(r, Pop), start, data, j + 1)
  {
    assert start + Surplus(|data|) + j in r.state.held;
    assert First(r.state.held) == start + Surplus(|data|) + j;
  }

  /** The last five numbers, one of them again after they have been played, and another pop. */
  function Wrapping<T>(data: seq<T>, v: T): seq<Event<T>> {
    Stream(MAX_SEQUENCE - 4, data, 5) + [Push(MAX_SEQUENCE - 4, v)] + [Pop]
  }

  /** A run in which order is lost: a number is played again, after greater ones. */
  lemma WrapsAround<T>(data: seq<T>, v: T)
    requires |data| == 5
    ensures var r := RunOf(MAX_SEQUENCE - 4, Wrapping(data, v));
      |r.played| == 6 && r.played[5] == (MAX_SEQUENCE - 4, v) && r.played[0].0 == r.played[5].0 < r.played[4].0
      && !Increasing(r)
  {
    var start, events := MAX_SEQUENCE - 4, Stream(MAX_SEQUENCE - 4, data, 5);
    AllPlayed(start, data, 5);
    RunLast(start, events, Push(start, v));
    RunLast(start, events + [Push(start, v)], Pop);
    PlaysAgain(RunOf(start, events), start, data, v);
  }

  lemma PlaysAgain<T>(r: Run<T>, start: nat, data: seq<T>, v: T)
    requires start == MAX_SEQUENCE - 4 && |data| == 5 && Drained(r, start, data, 5)
    ensures var t := Next(Next(r, Push(start, v)), Pop); t.played == r.played + [(start, v)]
  {
    var q := Next(r, Push(start, v));
    assert r.state.sequence == 0 && r.state.held == map[];
    assert q.state.held == map[start := v] && First(q.state.held) == start;
  }

  // ----- When playing begins

  /** The frames held after the first i events. */
  ghost function HeldAfter<T>(start: nat, events: seq<Event<T>>, i: nat): map<nat, T>
    requires i <= |events|
  {
    RunOf(start, events[..i]).state.held
  }

  /** Since five frames were held together after i events, no pop has found the buffer empty. */
  ghost predicate FedSince<T>(start: nat, events: seq<Event<T>>, i: nat) {
    && i <= |events| && |HeldAfter(start, events, i)| >= MINIMAL_SIZE
    && forall j :: i <= j < |events| && events[j] == Pop ==> HeldAfter(start, events, j) != map[]
  }

  /** The buffer plays from when five frames are held together until a pop finds it empty, and at no other time. */
  lemma {:induction false} PrimedWhileFed<T>(start: nat, events: seq<Event<T>>)
    requires Numbers(start, events)
    ensures RunOf(start, events).state.primed <==> exists i :: FedSince(start, events, i)
  {
    if events != [] {
      var before, e := events[..|events| - 1], events[|events| - 1];
      assert events == before + [e];
      NumbersBefore(start, before, e, events);
      PrimedWhileFed(start, before);
      FedLast(start, before, e, events);
    }
  }

  lemma NumbersBefore<T>(start: nat, before: seq<Event<T>>, e: Event<T>, events: seq<Event<T>>)
    requires events == before + [e] && Numbers(start, events)
    ensures Numbers(start, before) && (e.Push? ==> e.number <= MAX_SEQUENCE)
  {
    assert forall i :: 0 <= i < |before| ==> before[i] == events[i];
    assert events[|before|] == e;
  }

  lemma FedLast<T>(start: nat, before: seq<Event<T>>, e: Event<T>, events: seq<Event<T>>)
    requires events == before + [e] && Numbers(start, events)
    requires RunOf(start, before).state.primed <==> exists i :: FedSince(start, before, i)
    ensures RunOf(start, events).state.primed <==> exists i :: FedSince(start, events, i)
  {
    var r := RunOf(start, before);
    NumbersBefore(start, before, e, events);
    EveryRun(start, before);
    RunLast(start, before, e);
    NextKeeps(r, e);
    FedNow(start, before, e, events);
    if !(e == Pop && r.state.held == map[]) {
      forall i | 0 <= i <= |before|
        ensures FedSince(start, events, i) <==> FedSince(start, before, i)
      {
        FedEarlier(start, before, e, events, i);
      }
      if |Next(r, e).state.held| < MINIMAL_SIZE {
        StaysPrimed(r, e);
      }
    }
  }

  lemma FedNow<T>(start: nat, before: seq<Event<T>>, e: Event<T>, events: seq<Event<T>>)
    requires events == before + [e]
    ensures FedSince(start, events, |events|) <==> |RunOf(start, events).state.held| >= MINIMAL_SIZE
    ensures e == Pop && RunOf(start, before).state.held == map[] ==>
      forall i :: 0 <= i <= |before| ==> !FedSince(start, events, i)
  {
    assert events[..|events|] == events && events[..|before|] == before;
    assert events[|before|] == e;
  }

  lemma FedEarlier<T>(start: nat, before: seq<Event<T>>, e: Event<T>, events: seq<Event<T>>, i: nat)
    requires events == before + [e] && i <= |before| && (e == Pop ==> RunOf(start, before).state.held != map[])
    ensures FedSince(start, events, i) <==> FedSince(start, before, i)
  {
    assert forall j :: 0 <= j <= |before| ==> events[..j] == before[..j];
    assert before[..|before|] == before;
    if FedSince(start, before, i) {
      forall j | i <= j < |events| && events[j] == Pop
        ensures HeldAfter(start, events, j) != map[]
      {
        if j < |before| {
          assert before[j] == Pop;
          assert HeldAfter(start, before, j) != map[];
        }
      }
    }
  }

  lemma StaysPrimed<T>(r: Run<T>, e: Event<T>)
    requires ValidState(r.state) && (e == Pop ==> r.state.held != map[]) && |Next(r, e).state.held| < MINIMAL_SIZE
    ensures Next(r, e).state.primed <==> r.state.primed
  {
  }

  /** A pop plays the frame with the smallest number held, exactly if there is one and the buffer has been fed. */
  lemma PopPlays<T>(start: nat, events: seq<Event<T>>)
    requires Numbers(start, events)
    ensures var r, t := RunOf(start, events), RunOf(start, events + [Pop]);
      if r.state.held != map[] && exists i :: FedSince(start, events, i) then
        exists k :: Smallest(r.state.held, k) && t.played == r.played + [(k, r.state.held[k])]
                    && t.state.held == Without(r.state.held, k)
      else t.played == r.played && t.state.held == r.state.held
  {
    PrimedWhileFed(start, events);
    RunLast(start, events, Pop);
  }

  /** After a pop that finds it empty, the buffer waits for five frames again: until then, nothing is played. */
  lemma {:induction false} WaitsAgain<T>(start: nat, events: seq<Event<T>>, more: seq<Event<T>>)
    requires RunOf(start, events).state.held == map[]
    requires forall i :: 0 <= i <= |more| ==> |RunOf(start, events + [Pop] + more[..i]).state.held| < MINIMAL_SIZE
    ensures var r := RunOf(start, events + [Pop] + more);
      r.played == RunOf(start, events).played && !r.state.primed
    decreases |more|
  {
    if more == [] {
      assert events + [Pop] + more == events + [Pop];
      RunLast(start, events, Pop);
    } else {
      var last := |more| - 1;
      var before := more[..last];
      assert forall i :: 0 <= i <= last ==> before[..i] == more[..i];
      WaitsAgain(start, events, before);
      assert events + [Pop] + before + [more[last]] == events + [Pop] + more;
      RunLast(start, events + [Pop] + before, more[last]);
      assert more[..|more|] == more;
    }
  }

  /** Once five frames are held, whatever came before, the next pop plays the first of them. */
  lemma FivePlay<T>(start: nat, events: seq<Event<T>>)
    requires Numbers(start, events) && |RunOf(start, events).state.held| >= MINIMAL_SIZE
    ensures var r := RunOf(start, events);
      RunOf(start, events + [Pop]).played == r.played + [(First(r.state.held), r.state.held[First(r.state.held)])]
  {
    EveryRun(start, events);
    RunLast(start, events, Pop);
  }

  // ----- The buffer

  class JitterBuffer<T> {
    var sequence: nat
    var minimalSize: nat
    var buffer: map<nat, T>
    var maxSize: nat
    var primed: bool

    ghost predicate Valid()
      reads this
    {
      minimalSize == MINIMAL_SIZE && maxSize == MAX_SIZE
    }

    ghost function Abstract(): State<T>
      reads this
    {
      State(sequence, buffer, primed)
    }

    constructor (startSequence: nat)
      ensures Valid() && Abstract() == Start<T>(startSequence).state
    {
      sequence := startSequence;
      minimalSize := MINIMAL_SIZE;
      buffer := map[];
      maxSize := MAX_SIZE;
      primed := false;
    }

    method Push(number: nat, data: T)
      requires Valid()
      modifies this
      ensures Valid() && Abstract() == Pushed(old(Abstract()), number, data)
    {
      if sequence > number {
        return;
      }
      if |buffer| >= maxSize {
        var first := Begin(buffer);
        buffer := Without(buffer, first);
        buffer := Emplaced(buffer, number, data);
        return;
      }
      buffer := Emplaced(buffer, number, data);
      if |buffer| >= minimalSize {
        primed := true;
      }
    }

    method Pop() returns (data: Option<T>)
      requires Valid()
      modifies this
      ensures Valid() && Abstract() == Popped(old(Abstract()))
      ensures data == if old(primed && buffer != map[]) then Some(old(buffer)[First(old(buffer))]) else None
    {
      if !primed {
        return None;
      }
      if buffer == map[] {
        primed := false;
        return None;
      }
      var first := Begin(buffer);
      sequence := first;
      data := Some(buffer[first]);
      buffer := Without(buffer, first);
      sequence := (sequence + 1) % (MAX_SEQUENCE + 1);
    }
  }
}
