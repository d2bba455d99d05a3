/** The hierarchical timing wheel of skynet_timer.c: 256 near lists and four levels of 64 lists over a 32-bit clock that
    wraps. `Wheel` is the structure as it is; `Clock` says what it is for: a timer due at a tick fires at that tick, and
    timers due together fire in the order in which they were added. */
module Timer {
  const WORD: int := 0x1_0000_0000
  const LIMIT: int := 0x8000_0000

  type Word = x: int | 0 <= x < 0x1_0000_0000

  const NEAR: int := 256
  const LEVEL: int := 64

  /** The ticks that one list of a level covers; the next unit is that level's whole span. */
  function Unit(level: nat): (m: int)
    requires level <= 3
    ensures m > 0
  {
    if level == 0 then 0x100 else if level == 1 then 0x4000 else if level == 2 then 0x10_0000 else 0x400_0000
  }

  datatype Event = Event(handle: Word, session: int)

  /** A node of the wheel: the event that follows it in memory, and the wrapping tick at which it expires. */
  datatype Node = Node(event: Event, expire: Word)

  /** Which list of the wheel */
  datatype Slot = Near(idx: nat) | Level(level: nat, idx: nat)

  predicate InWheel(s: Slot) {
    match s
    case Near(i) => i < NEAR
    case Level(l, i) => l < 4 && i < LEVEL
  }

  // ---- What timers are for --------------------------------------------------------------------------------------

  /** A timer by the tick at which it is due, counted without wrapping. */
  datatype Timer = Timer(event: Event, due: nat)

  datatype Request = Request(event: Event, time: int)

  predicate ValidRequest(r: Request) {
    0 <= r.time < LIMIT
  }

  datatype Fired = Fired(timer: Timer, tick: nat)

  /** Ticks so far, every timer in the order in which it was added, those still waiting, and what has fired. */
  datatype Clock = Clock(ticks: nat, added: seq<Timer>, pending: seq<Timer>, fired: seq<Fired>)

  const START := Clock(0, [], [], [])

  function Due(ps: seq<Timer>, tick: nat): (r: seq<Timer>)
    ensures |r| <= |ps|
  {
    if ps == [] then []
    else if ps[0].due == tick then [ps[0]] + Due(ps[1..], tick)
    else Due(ps[1..], tick)
  }

  function NotDue(ps: seq<Timer>, tick: nat): (r: seq<Timer>)
    ensures |r| + |Due(ps, tick)| == |ps|
  {
    if ps == [] then []
    else if ps[0].due == tick then NotDue(ps[1..], tick)
    else [ps[0]] + NotDue(ps[1..], tick)
  }

  function Stamp(ps: seq<Timer>, tick: nat): (r: seq<Fired>)
    ensures |r| == |ps|
  {
    if ps == [] then [] else [Fired(ps[0], tick)] + Stamp(ps[1..], tick)
  }

  function Add(c: Clock, r: Request): Clock
    requires ValidRequest(r)
  {
    var t := Timer(r.event, c.ticks + r.time);
    c.(added := c.added + [t], pending := c.pending + [t])
  }

  predicate ValidRequests(rs: seq<Request>) {
    forall k :: 0 <= k < |rs| ==> ValidRequest(rs[k])
  }

  function AddAll(c: Clock, rs: seq<Request>): (n: Clock)
    requires ValidRequests(rs)
    ensures n.ticks == c.ticks
    decreases |rs|
  {
    if rs == [] then c else AddAll(Add(c, rs[0]), rs[1..])
  }

  /** Fire everything due now. */
  function Fire(c: Clock): Clock {
    c.(pending := NotDue(c.pending, c.ticks), fired := c.fired + Stamp(Due(c.pending, c.ticks), c.ticks))
  }

  predicate ValidBatches(others: seq<seq<Request>>) {
    forall k :: 0 <= k < |others| ==> ValidRequests(others[k])
  }

  /** Fire until nothing is due. The lock is released while events are dispatched, so that other threads can add
      timers: `others[k]` are those added during the k-th dispatch. */
  function Execute(c: Clock, others: seq<seq<Request>>): Clock
    requires ValidBatches(others)
    decreases |others|
  {
    if Due(c.pending, c.ticks) == [] then c
    else if others == [] then Fire(c)
    else Execute(AddAll(Fire(c), others[0]), others[1..])
  }

  function Tick(c: Clock): Clock {
    c.(ticks := c.ticks + 1)
  }

  function Update(c: Clock, before: seq<seq<Request>>, after: seq<seq<Request>>): Clock
    requires ValidBatches(before) && ValidBatches(after)
  {
    Execute(Tick(Execute(c, before)), after)
  }

  // ---- Where a node belongs -------------------------------------------------------------------------------------

  /** The list for a node as a function of when it expires and of the clock alone */
  function Place(expire: int, now: int): (s: Slot)
    requires expire >= 0 && now >= 0
    ensures InWheel(s)
  {
    if expire / 0x100 == now / 0x100 then Near(expire % NEAR)
    else if expire / 0x4000 == now / 0x4000 then Level(0, expire / 0x100 % LEVEL)
    else if expire / 0x10_0000 == now / 0x10_0000 then Level(1, expire / 0x4000 % LEVEL)
    else if expire / 0x400_0000 == now / 0x400_0000 then Level(2, expire / 0x10_0000 % LEVEL)
    else Level(3, expire / 0x400_0000 % LEVEL)
  }

  predicate Ahead(due: nat, ticks: nat) {
    ticks <= due < ticks + LIMIT
  }

  function Wrap(x: int): Word {
    x % WORD
  }

  lemma Multiple(d: int, m: int)
    requires m > 0
    ensures d >= 1 ==> d * m >= m
    ensures d <= -1 ==> d * m <= -m
  {
  }

  lemma DivUnique(x: int, m: int, q: int, r: int)
    requires m > 0 && x == q * m + r && 0 <= r < m
    ensures x / m == q && x % m == r
  {
    Multiple(x / m - q, m);
    assert (x / m - q) * m == x / m * m - q * m;
  }

  /** Dividing by `m * k` in two steps */
  lemma DivTwice(x: nat, m: int, k: int)
    requires m > 0 && k > 0 && m * k > 0
    ensures x % (m * k) / m == x / m % k
    ensures x % (m * k) % m == x % m
    ensures x / m / k == x / (m * k)
  {
    var q, r := x / (m * k), x % (m * k);
    var a, b := r / m, r % m;
    Multiple(a - k + 1, m);
    assert (a - k + 1) * m == a * m - k * m + m;
    Regroup(q, m, k, a, b);
    DivUnique(x, m, q * k + a, b);
    DivUnique(x / m, k, q, a);
  }

  lemma Regroup(q: int, m: int, k: int, a: int, b: int)
    ensures q * (m * k) + (a * m + b) == (q * k + a) * m + b
  {
    assert q * (m * k) == q * k * m;
  }

  /** Two numbers less than `k` apart are the same when they are the same modulo `k`. */
  lemma SameMod(x: int, y: int, k: int)
    requires k > 0 && y <= x < y + k
    ensures x % k == y % k <==> x == y
  {
    if x % k == y % k {
      assert x - y == (x / k - y / k) * k;
      Multiple(x / k - y / k, k);
    }
  }

  /** Blocks of `m` ticks less than 2^31 ticks apart are the same when they are the same in the wrapping clock. */
  lemma WrapBlock(due: nat, ticks: nat, m: int, k: int)
    requires m > 0 && k > 1 && m * k == WORD && Ahead(due, ticks) && m <= LIMIT
    ensures Wrap(due) / m == Wrap(ticks) / m <==> due / m == ticks / m
    ensures Wrap(due) / m == due / m % k
  {
    DivTwice(due, m, k);
    DivTwice(ticks, m, k);
    Blocks(due, ticks, m, k);
    SameMod(due / m, ticks / m, k);
  }

  lemma Blocks(x: nat, y: nat, m: int, k: int)
    requires m > 0 && k > 1 && y <= x && x - y <= m * k - m
    ensures y / m <= x / m < y / m + k
  {
    var q, r := x / m, y / m;
    assert x == q * m + x % m && y == r * m + y % m;
    BlockSpan(q, x % m, r, y % m, m, k);
  }

  lemma BlockSpan(q: int, a: int, r: int, b: int, m: int, k: int)
    requires 0 <= a < m && 0 <= b < m && 0 <= q * m + a - (r * m + b) <= m * k - m
    ensures r <= q < r + k
  {
    assert (q - r) * m == q * m - r * m;
    assert (q - r - k + 1) * m == q * m - r * m - k * m + m;
    Multiple(q - r, m);
    Multiple(q - r - k + 1, m);
  }

  /** The index into a level is the same in the wrapping clock. */
  lemma WrapIndex(x: nat, m: int, k: int, size: int)
    requires m > 0 && k > 0 && size > 0 && size * k > 0 && m * (size * k) == WORD
    ensures Wrap(x) / m % size == x / m % size
  {
    DivTwice(x, m, size * k);
    DivTwice(x / m, size, k);
  }

  /** Wrapping does not change where a timer belongs as long as it is less than 2^31 ticks ahead. */
  lemma PlaceWraps(due: nat, ticks: nat)
    requires Ahead(due, ticks)
    ensures Place(Wrap(due), Wrap(ticks)) == Place(due, ticks)
  {
    hide Wrap;
    WrapBlock(due, ticks, 0x100, 0x100_0000);
    WrapBlock(due, ticks, 0x4000, 0x4_0000);
    WrapBlock(due, ticks, 0x10_0000, 0x1000);
    WrapBlock(due, ticks, 0x400_0000, 0x40);
    WrapIndex(due, 1, 0x100_0000, NEAR);
    WrapIndex(due, 0x100, 0x4_0000, LEVEL);
    WrapIndex(due, 0x4000, 0x1000, LEVEL);
    WrapIndex(due, 0x10_0000, 0x40, LEVEL);
    WrapIndex(due, 0x400_0000, 1, LEVEL);
  }

  /** The level whose list is spread over the lower lists when the clock becomes `n` */
  function CascadeLevel(n: int): (l: nat)
    requires n >= 0 && n % NEAR == 0
    ensures l <= 3
  {
    if n % 0x4000 != 0 then 0 else if n % 0x10_0000 != 0 then 1 else if n % 0x400_0000 != 0 then 2 else 3
  }

  function CascadeSlot(n: int): (s: Slot)
    requires n >= 0 && n % NEAR == 0
    ensures InWheel(s)
  {
    var l := CascadeLevel(n);
    Level(l, n / Unit(l) % LEVEL)
  }

  /** Is `s` below the level that is spread? */
  predicate Below(s: Slot, level: nat) {
    s.Near? || s.level < level
  }

  /** Blocks of `m` ticks when the clock steps to `n` */
  lemma StepBlock(due: nat, n: nat, m: int)
    requires m > 0 && 0 < n <= due
    ensures due / m >= n / m
    ensures n % m != 0 ==> (n - 1) / m == n / m
    ensures n % m == 0 ==> (n - 1) / m == n / m - 1
  {
    var q, r := n / m, n % m;
    if r != 0 {
      DivUnique(n - 1, m, q, r - 1);
    } else {
      assert n - 1 == (q - 1) * m + (m - 1);
      DivUnique(n - 1, m, q - 1, m - 1);
    }
    Multiple(due / m - q, m);
    assert (due / m - q) * m == due / m * m - q * m;
  }

  /** In the same larger block, the smaller block is known by its index. */
  lemma SameIndex(due: nat, n: nat, m: int)
    requires m > 0
    ensures due / m % LEVEL == n / m % LEVEL && due / (m * LEVEL) == n / (m * LEVEL) <==> due / m == n / m
    ensures n % (m * LEVEL) == 0 ==> n % m == 0
  {
    DivTwice(due, m, LEVEL);
    DivTwice(n, m, LEVEL);
    if n % (m * LEVEL) == 0 {
      DivUnique(n, m, n / (m * LEVEL) * LEVEL, 0);
    }
  }

  lemma SameTopIndex(due: nat, n: nat)
    requires n <= due && due - n <= LIMIT
    ensures due / 0x400_0000 % LEVEL == n / 0x400_0000 % LEVEL <==> due / 0x400_0000 == n / 0x400_0000
  {
    Blocks(due, n, 0x400_0000, LEVEL);
    SameMod(due / 0x400_0000, n / 0x400_0000, LEVEL);
  }

  /** One tick changes the place of exactly the timers in the list that is spread, and it moves those further down. */
  lemma CascadeMoves(due: nat, ticks: nat)
    requires ticks < due && Ahead(due, ticks)
    ensures (ticks + 1) % NEAR != 0 ==> Place(due, ticks + 1) == Place(due, ticks)
    ensures (ticks + 1) % NEAR == 0 ==>
              var from := CascadeSlot(ticks + 1);
              && (if Place(due, ticks) == from then Below(Place(due, ticks + 1), from.level)
                  else Place(due, ticks + 1) == Place(due, ticks))
              && !Below(Place(due, ticks), from.level)
  {
    var n: nat := ticks + 1;
    StepBlock(due, n, 0x100);
    StepBlock(due, n, 0x4000);
    StepBlock(due, n, 0x10_0000);
    StepBlock(due, n, 0x400_0000);
    SameIndex(due, n, 0x100);
    SameIndex(due, n, 0x4000);
    SameIndex(due, n, 0x10_0000);
    SameTopIndex(due, n);
    hide LEVEL;
  }

  // ---- The wheel ------------------------------------------------------------------------------------------------

  function NodeOf(t: Timer): Node {
    Node(t.event, Wrap(t.due))
  }

  /** What list `s` holds when `ps` are waiting */
  function Listed(ps: seq<Timer>, s: Slot, ticks: nat): seq<Node> {
    if ps == [] then []
    else if Place(ps[0].due, ticks) == s then [NodeOf(ps[0])] + Listed(ps[1..], s, ticks)
    else Listed(ps[1..], s, ticks)
  }

  /** Those of `nodes` that belong to list `s` */
  function Placed(nodes: seq<Node>, s: Slot, now: Word): seq<Node> {
    if nodes == [] then []
    else if Place(nodes[0].expire, now) == s then [nodes[0]] + Placed(nodes[1..], s, now)
    else Placed(nodes[1..], s, now)
  }

  /** A list after it was emptied, or not, and then extended by `more` */
  function Joined(emptied: bool, list: seq<Node>, more: seq<Node>): seq<Node> {
    if emptied then more else list + more
  }

  lemma JoinedStart(emptied: bool, list: seq<Node>, moved: seq<Node>, s: Slot, now: Word)
    ensures Joined(emptied, list, Placed(moved[..0], s, now)) == if emptied then [] else list
  {
    assert list + [] == list;
  }

  lemma JoinedNext(emptied: bool, list: seq<Node>, moved: seq<Node>, k: nat, s: Slot, now: Word)
    requires k < |moved|
    ensures var sofar := Joined(emptied, list, Placed(moved[..k], s, now));
            Joined(emptied, list, Placed(moved[..k + 1], s, now))
            == if s == Place(moved[k].expire, now) then sofar + [moved[k]] else sofar
  {
    hide Place;
    assert moved[..k + 1] == moved[..k] + [moved[k]];
    PlacedAppend(moved[..k], [moved[k]], s, now);
  }

  function EventsOf(nodes: seq<Node>): seq<Event> {
    if nodes == [] then [] else [nodes[0].event] + EventsOf(nodes[1..])
  }

  function Sent(fired: seq<Fired>): seq<Event> {
    if fired == [] then [] else [fired[0].timer.event] + Sent(fired[1..])
  }

  ghost predicate AllAhead(ps: seq<Timer>, ticks: nat) {
    forall k :: 0 <= k < |ps| ==> Ahead(ps[k].due, ticks)
  }

  lemma {:induction false} ListedAppend(a: seq<Timer>, b: seq<Timer>, s: Slot, ticks: nat)
    ensures Listed(a + b, s, ticks) == Listed(a, s, ticks) + Listed(b, s, ticks)
  {
    hide Place, Wrap;
    if a == [] {
      assert a + b == b;
    } else {
      ListedAppend(a[1..], b, s, ticks);
      assert (a + b)[1..] == a[1..] + b;
    }
  }

  lemma {:induction false} PlacedAppend(a: seq<Node>, b: seq<Node>, s: Slot, now: Word)
    ensures Placed(a + b, s, now) == Placed(a, s, now) + Placed(b, s, now)
  {
    hide Place, Wrap;
    if a == [] {
      assert a + b == b;
    } else {
      PlacedAppend(a[1..], b, s, now);
      assert (a + b)[1..] == a[1..] + b;
    }
  }

  ghost predicate StrictlyAhead(ps: seq<Timer>, ticks: nat) {
    forall k :: 0 <= k < |ps| ==> ticks < ps[k].due && Ahead(ps[k].due, ticks)
  }

  /** Without a cascade every list stays as it is. */
  lemma {:induction false} PlainTick(ps: seq<Timer>, s: Slot, ticks: nat)
    requires StrictlyAhead(ps, ticks) && (ticks + 1) % NEAR != 0
    ensures Listed(ps, s, ticks + 1) == Listed(ps, s, ticks)
  {
    hide Place, Wrap;
    if ps != [] {
      CascadeMoves(ps[0].due, ticks);
      PlainTick(ps[1..], s, ticks);
    }
  }

  /** Spreading list `from` over the lists that were empty gives the lists for the next tick, in order. */
  lemma {:induction false} CascadeLists(ps: seq<Timer>, s: Slot, ticks: nat, from: Slot)
    requires StrictlyAhead(ps, ticks) && (ticks + 1) % NEAR == 0 && from == CascadeSlot(ticks + 1)
    ensures Listed(ps, s, ticks + 1)
         == Joined(s == from, Listed(ps, s, ticks), Placed(Listed(ps, from, ticks), s, Wrap(ticks + 1)))
    ensures Below(s, from.level) ==> Listed(ps, s, ticks) == []
  {
    hide Place, Wrap;
    if ps != [] {
      CascadeMoves(ps[0].due, ticks);
      CascadeLists(ps[1..], s, ticks, from);
      PlaceWraps(ps[0].due, ticks + 1);
      var rest := Listed(ps[1..], from, ticks);
      var node := NodeOf(ps[0]);
      if Place(ps[0].due, ticks) == from {
        assert ([node] + rest)[1..] == rest;
        assert Placed([node] + rest, s, Wrap(ticks + 1))
            == if Place(ps[0].due, ticks + 1) == s then [node] + Placed(rest, s, Wrap(ticks + 1))
               else Placed(rest, s, Wrap(ticks + 1));
        assert Place(ps[0].due, ticks + 1) == s ==> Listed(ps[1..], s, ticks) == [];
      }
    }
  }

  /** The near list of the current tick holds exactly what is due. */
  lemma {:induction false} NearIsDue(ps: seq<Timer>, ticks: nat)
    requires AllAhead(ps, ticks)
    ensures EventsOf(Listed(ps, Near(ticks % NEAR), ticks)) == Sent(Stamp(Due(ps, ticks), ticks))
    ensures |Listed(ps, Near(ticks % NEAR), ticks)| == |Due(ps, ticks)|
  {
    hide Place, Wrap;
    if ps != [] {
      NearIsDue(ps[1..], ticks);
      SameNear(ps[0].due, ticks);
      var nodes, due := Listed(ps[1..], Near(ticks % NEAR), ticks), Due(ps[1..], ticks);
      if ps[0].due == ticks {
        assert ([NodeOf(ps[0])] + nodes)[1..] == nodes;
        assert ([ps[0]] + due)[1..] == due;
        var fired := Stamp(due, ticks);
        assert ([Fired(ps[0], ticks)] + fired)[1..] == fired;
      }
    }
  }

  lemma SameNear(due: nat, ticks: nat)
    ensures Place(due, ticks) == Near(ticks % NEAR) <==> due == ticks
  {
  }

  /** Taking what is due leaves every other list alone. */
  lemma {:induction false} ListedNotDue(ps: seq<Timer>, s: Slot, ticks: nat)
    ensures Listed(NotDue(ps, ticks), s, ticks) == if s == Near(ticks % NEAR) then [] else Listed(ps, s, ticks)
  {
    hide Place, Wrap;
    if ps != [] {
      ListedNotDue(ps[1..], s, ticks);
      SameNear(ps[0].due, ticks);
      var rest := NotDue(ps[1..], ticks);
      if ps[0].due != ticks {
        assert ([ps[0]] + rest)[1..] == rest;
        assert Place(ps[0].due, ticks) != Near(ticks % NEAR);
      }
    }
  }

  lemma {:induction false} NotDueKeeps(ps: seq<Timer>, ticks: nat)
    ensures forall p :: p in NotDue(ps, ticks) ==> p in ps && p.due != ticks
  {
    if ps != [] {
      NotDueKeeps(ps[1..], ticks);
    }
  }

  lemma {:induction false} NothingLeft(ps: seq<Timer>, ticks: nat)
    ensures Due(NotDue(ps, ticks), ticks) == []
  {
    if ps != [] {
      NothingLeft(ps[1..], ticks);
    }
  }

  lemma {:induction false} NothingDue(ps: seq<Timer>, ticks: nat)
    requires Due(ps, ticks) == []
    ensures forall p :: p in ps ==> p.due != ticks
  {
    if ps != [] {
      NothingDue(ps[1..], ticks);
    }
  }

  lemma {:induction false} SentAppend(a: seq<Fired>, b: seq<Fired>)
    ensures Sent(a + b) == Sent(a) + Sent(b)
  {
    if a == [] {
      assert a + b == b;
    } else {
      SentAppend(a[1..], b);
      assert (a + b)[1..] == a[1..] + b;
    }
  }

  /** `CascadeSlot` is the same on the wrapping clock. */
  lemma CascadeWraps(n: nat)
    ensures Wrap(n) % NEAR == n % NEAR
    ensures n % NEAR == 0 ==> CascadeSlot(Wrap(n)) == CascadeSlot(n)
  {
    DivTwice(n, 0x100, 0x100_0000);
    DivTwice(n, 0x4000, 0x4_0000);
    DivTwice(n, 0x10_0000, 0x1000);
    DivTwice(n, 0x400_0000, 0x40);
    DivTwice(n / 0x100, LEVEL, 0x4_0000);
    DivTwice(n / 0x4000, LEVEL, 0x1000);
    DivTwice(n / 0x10_0000, LEVEL, 0x40);
  }

  /** `x | (m - 1)` for a power of two `m` */
  function Fill(x: int, m: int): int
    requires m > 0
  {
    x / m * m + (m - 1)
  }

  lemma FillSame(x: int, y: int, m: int)
    requires m > 0
    ensures Fill(x, m) == Fill(y, m) <==> x / m == y / m
  {
    Multiple(x / m - y / m, m);
    assert (x / m - y / m) * m == x / m * m - y / m * m;
  }

  lemma WrapSum(a: nat, n: nat)
    ensures (a + Wrap(n)) % 0x1_0000_0000 == Wrap(n + a)
  {
  }

  /** All levels below `i` have wrapped around. */
  predicate Carried(ct: nat, i: nat)
    requires i <= 3
  {
    i == 0 || (ct % Unit(i) == 0 && ct % NEAR == 0 && CascadeLevel(ct) >= i)
  }


  lemma CarryStart(ct: nat)
    ensures Unit(0) == NEAR && Carried(ct, 0)
    ensures ct == 0 ==> CascadeSlot(ct) == Level(3, 0)
  {
  }

  lemma CarryStep(ct: nat, i: nat)
    requires i <= 3 && 0 < ct < WORD && Carried(ct, i) && ct % Unit(i) == 0
    ensures ct % NEAR == 0
    ensures ct / Unit(i) % LEVEL != 0 ==> CascadeSlot(ct) == Level(i, ct / Unit(i) % LEVEL)
    ensures ct / Unit(i) % LEVEL == 0 ==>
              i < 3 && Carried(ct, i + 1) && Unit(i) * LEVEL == Unit(i + 1) && ct / Unit(i) / LEVEL == ct / Unit(i + 1)
              && ct % Unit(i + 1) == 0
  {
    DivTwice(ct, Unit(i), LEVEL);
    var q := ct / Unit(i);
    if q % LEVEL == 0 {
      assert ct == q / LEVEL * (Unit(i) * LEVEL);
      DivUnique(ct, Unit(i) * LEVEL, q / LEVEL, 0);
    }
  }

  lemma Spread(ps: seq<Timer>, ticks: nat, from: Slot)
    requires StrictlyAhead(ps, ticks) && (ticks + 1) % NEAR == 0 && from == CascadeSlot(ticks + 1)
    ensures forall s :: InWheel(s) ==>
              Listed(ps, s, ticks + 1)
              == Joined(s == from, Listed(ps, s, ticks), Placed(Listed(ps, from, ticks), s, Wrap(ticks + 1)))
  {
    hide Place, Wrap;
    forall s | InWheel(s)
      ensures Listed(ps, s, ticks + 1)
           == Joined(s == from, Listed(ps, s, ticks), Placed(Listed(ps, from, ticks), s, Wrap(ticks + 1)))
    {
      CascadeLists(ps, s, ticks, from);
    }
  }

  lemma ExecuteStep(c: Clock, others: seq<seq<Request>>, k: nat)
    requires k <= |others| && ValidBatches(others) && Due(c.pending, c.ticks) != []
    ensures Execute(c, others[k..]) == if k == |others| then Fire(c) else Execute(AddAll(Fire(c), others[k]), others[k + 1..])
    ensures Fire(c).ticks == c.ticks && Due(Fire(c).pending, c.ticks) == []
  {
    if k < |others| {
      assert others[k..][1..] == others[k + 1..];
    }
    NothingLeft(c.pending, c.ticks);
  }

  lemma ExecuteEnds(c: Clock, others: seq<seq<Request>>)
    requires ValidBatches(others) && Due(c.pending, c.ticks) == []
    ensures Execute(c, others) == c
  {
  }

  class Wheel {
    const near: array<seq<Node>>
    const levels: array2<seq<Node>>
    var time: Word
    /** The events pushed to their services, in order */
    var sent: seq<Event>
    ghost var clock: Clock

    ghost predicate Shape()
    {
      near.Length == NEAR && levels.Length0 == 4 && levels.Length1 == LEVEL
    }

    ghost function List(s: Slot): seq<Node>
      requires Shape() && InWheel(s)
      reads near, levels
    {
      match s
      case Near(i) => near[i]
      case Level(l, i) => levels[l, i]
    }

    ghost predicate Lists(ps: seq<Timer>, ticks: nat)
      requires Shape()
      reads near, levels
    {
      forall s :: InWheel(s) ==> List(s) == Listed(ps, s, ticks)
    }

    /** Every list holds the waiting timers whose place it is, in the order in which they were added. */
    ghost predicate Valid()
      reads this, near, levels
    {
      && Shape()
      && time == Wrap(clock.ticks)
      && AllAhead(clock.pending, clock.ticks)
      && sent == Sent(clock.fired)
      && Lists(clock.pending, clock.ticks)
    }

    constructor ()
      ensures Valid() && clock == START && fresh(near) && fresh(levels)
    {
      near := new seq<Node>[256](_ => []);
      levels := new seq<Node>[4, 64]((_, _) => []);
      time := 0;
      sent := [];
      clock := START;
    }

    /** Link a node at the end of the list where it belongs. */
    method AddNode(node: Node)
      requires Shape()
      modifies near, levels
      ensures forall s :: InWheel(s) ==>
                List(s) == if s == Place(node.expire, time) then old(List(s)) + [node] else old(List(s))
    {
      var expire, now := node.expire, time;
      FillSame(expire, now, 0x100);
      FillSame(expire, now, 0x4000);
      FillSame(expire, now, 0x10_0000);
      FillSame(expire, now, 0x400_0000);
      if Fill(expire, NEAR) == Fill(now, NEAR) {
        near[expire % NEAR] := near[expire % NEAR] + [node];
      } else {
        var i: int, mask: int := 0, NEAR * LEVEL;
        while i < 3 && Fill(expire, mask) != Fill(now, mask)
          invariant 0 <= i <= 3 && mask == (if i < 3 then Unit(i + 1) else WORD)
          invariant i >= 1 ==> expire / 0x4000 != now / 0x4000
          invariant i >= 2 ==> expire / 0x10_0000 != now / 0x10_0000
          invariant i >= 3 ==> expire / 0x400_0000 != now / 0x400_0000
        {
          mask := mask * LEVEL;
          i := i + 1;
        }
        var idx := expire / Unit(i) % LEVEL;
        levels[i, idx] := levels[i, idx] + [node];
      }
    }

    /** Add a timer that is due `r.time` ticks from now. */
    method TimerAdd(r: Request)
      requires Valid() && ValidRequest(r)
      modifies this`clock, near, levels
      ensures Valid() && clock == Add(old(clock), r)
    {
      hide Place, Wrap;
      var node := Node(r.event, (r.time + time) % 0x1_0000_0000);
      ghost var timer := Timer(r.event, clock.ticks + r.time);
      AddNode(node);
      clock := Add(clock, r);
      PlaceWraps(timer.due, clock.ticks);
      assert node == NodeOf(timer) by {
        WrapSum(r.time, clock.ticks);
      }
      forall s | InWheel(s) ensures List(s) == Listed(clock.pending, s, clock.ticks) {
        ListedAppend(old(clock.pending), [timer], s, clock.ticks);
        assert Listed([timer], s, clock.ticks) == if Place(timer.due, clock.ticks) == s then [node] else [];
      }
    }

    /** Empty a list and add its nodes again. */
    method MoveList(level: nat, idx: nat)
      requires Shape() && level < 4 && idx < LEVEL
      modifies near, levels
      ensures forall s :: InWheel(s) ==>
                List(s) == Joined(s == Level(level, idx), old(List(s)), Placed(old(List(Level(level, idx))), s, time))
    {
      hide Place, Wrap, Placed, Joined;
      var current := levels[level, idx];
      ghost var moved := current;
      levels[level, idx] := [];
      ghost var k := 0;
      forall s | InWheel(s)
        ensures Joined(s == Level(level, idx), old(List(s)), Placed(moved[..k], s, time)) == List(s)
      {
        JoinedStart(s == Level(level, idx), old(List(s)), moved, s, time);
      }
      while current != []
        invariant k <= |moved| && current == moved[k..]
        invariant forall s :: InWheel(s) ==>
                    List(s) == Joined(s == Level(level, idx), old(List(s)), Placed(moved[..k], s, time))
        decreases |current|
      {
        AddNode(current[0]);
        forall s | InWheel(s)
          ensures List(s) == Joined(s == Level(level, idx), old(List(s)), Placed(moved[..k + 1], s, time))
        {
          JoinedNext(s == Level(level, idx), old(List(s)), moved, k, s, time);
        }
        current := current[1..];
        k := k + 1;
      }
      assert moved[..k] == moved;
    }

    /** Advance the clock and spread the list whose turn it is. */
    method TimerShift()
      requires Valid() && Due(clock.pending, clock.ticks) == []
      modifies this`time, this`clock, near, levels
      ensures Valid() && clock == Tick(old(clock))
    {
      hide Place, Wrap, Unit, CascadeLevel, CascadeSlot, Carried, Listed, Due, Placed;
      ghost var ticks, ps := clock.ticks, clock.pending;
      var ct: Word := (time + 1) % 0x1_0000_0000;
      time := ct;
      clock := Tick(clock);
      WrapSum(1, ticks);
      CascadeWraps(ticks + 1);
      NothingDue(ps, ticks);
      assert StrictlyAhead(ps, ticks);
      CarryStart(ct);
      if ct == 0 {
        MoveList(3, 0);
        Spread(ps, ticks, Level(3, 0));
      } else {
        var t: int, i: int, mask: int := ct / NEAR, 0, NEAR;
        while ct % mask == 0
          invariant 0 <= i <= 3 && mask == Unit(i) && t == ct / mask && Carried(ct, i)
          invariant i > 0 ==> ct % mask == 0
          invariant time == ct && clock == Tick(old(clock)) && Lists(ps, ticks)
          decreases 4 - i
        {
          var idx := t % LEVEL;
          CarryStep(ct, i);
          if idx != 0 {
            MoveList(i, idx);
            Spread(ps, ticks, Level(i, idx));
            return;
          }
          mask := mask * LEVEL;
          t := t / LEVEL;
          i := i + 1;
        }
        forall s | InWheel(s) ensures List(s) == Listed(ps, s, ticks + 1) {
          PlainTick(ps, s, ticks);
        }
      }
    }

    /** Fire until the near list of the current tick stays empty; `others` are the timers that other threads add while
        the lock is released. */
    method TimerExecute(others: seq<seq<Request>>)
      requires Valid() && ValidBatches(others)
      modifies this`sent, this`clock, near, levels
      ensures Valid() && clock == Execute(old(clock), others)
      ensures Due(clock.pending, clock.ticks) == []
    {
      hide Place, Wrap;
      hide Due, NotDue, Listed, Stamp, Fire, Execute, AddAll;
      var idx := time % NEAR;
      var k: nat := 0;
      CascadeWraps(clock.ticks);
      NearIsDue(clock.pending, clock.ticks);
      assert others[0..] == others;
      while near[idx] != []
        invariant Valid() && clock.ticks == old(clock).ticks && k <= |others|
        invariant Execute(clock, others[k..]) == Execute(old(clock), others)
        invariant near[idx] == [] <==> Due(clock.pending, clock.ticks) == []
        decreases |others| - k, |near[idx]|
      {
        ExecuteStep(clock, others, k);
        FireList(idx);
        if k < |others| {
          AddTimers(others[k]);
          k := k + 1;
        } else {
          ExecuteEnds(clock, others[k..]);
        }
        NearIsDue(clock.pending, clock.ticks);
      }
      ExecuteEnds(clock, others[k..]);
    }

    /** Take the list of the current tick out of the wheel and dispatch it. */
    method FireList(idx: nat)
      requires Valid() && idx == clock.ticks % NEAR
      modifies this`sent, this`clock, near
      ensures Valid() && clock == Fire(old(clock))
    {
      hide Place, Wrap;
      NearIsDue(clock.pending, clock.ticks);
      ghost var fired := clock.fired;
      var current := near[idx];
      near[idx] := [];
      DispatchList(current);
      ghost var ps, ticks := clock.pending, clock.ticks;
      clock := Fire(clock);
      SentAppend(fired, Stamp(Due(ps, ticks), ticks));
      NotDueKeeps(ps, ticks);
      forall s | InWheel(s) ensures List(s) == Listed(clock.pending, s, ticks) {
        ListedNotDue(ps, s, ticks);
      }
    }

    /** Push the events of a list that has been taken out of the wheel. */
    method DispatchList(nodes: seq<Node>)
      modifies this`sent
      ensures sent == old(sent) + EventsOf(nodes)
    {
      var current := nodes;
      while current != []
        invariant sent + EventsOf(current) == old(sent) + EventsOf(nodes)
        decreases |current|
      {
        sent := sent + [current[0].event];
        current := current[1..];
      }
    }

    /** Timers that other threads add, one after the other */
    method AddTimers(rs: seq<Request>)
      requires Valid() && ValidRequests(rs)
      modifies this`clock, near, levels
      ensures Valid() && clock == AddAll(old(clock), rs)
    {
      var k := 0;
      while k < |rs|
        invariant 0 <= k <= |rs| && Valid() && AddAll(clock, rs[k..]) == AddAll(old(clock), rs)
      {
        TimerAdd(rs[k]);
        k := k + 1;
      }
    }

    /** One tick */
    method TimerUpdate(before: seq<seq<Request>>, after: seq<seq<Request>>)
      requires Valid() && ValidBatches(before) && ValidBatches(after)
      modifies this, near, levels
      ensures Valid() && clock == Update(old(clock), before, after)
    {
      TimerExecute(before);
      TimerShift();
      TimerExecute(after);
    }
  }

  // ---- Whole runs -----------------------------------------------------------------------------------------------

  /** A run of the timer thread and of the services: updates, with the timers added while they dispatch, and timers
      added in between */
  datatype Step = AddTimer(r: Request) | Elapse(before: seq<seq<Request>>, after: seq<seq<Request>>)

  predicate ValidStep(step: Step) {
    match step
    case AddTimer(r) => ValidRequest(r)
    case Elapse(before, after) => ValidBatches(before) && ValidBatches(after)
  }

  predicate ValidSteps(steps: seq<Step>) {
    forall k :: 0 <= k < |steps| ==> ValidStep(steps[k])
  }

  function Take(c: Clock, step: Step): Clock
    requires ValidStep(step)
  {
    match step
    case AddTimer(r) => Add(c, r)
    case Elapse(before, after) => Update(c, before, after)
  }

  function Run(steps: seq<Step>): Clock
    requires ValidSteps(steps)
  {
    if steps == [] then START else Take(Run(steps[..|steps| - 1]), steps[|steps| - 1])
  }

  function Updates(steps: seq<Step>): nat {
    if steps == [] then 0 else Updates(steps[..|steps| - 1]) + if steps[|steps| - 1].Elapse? then 1 else 0
  }

  /** What has to fire before tick `end`, and when: tick by tick, and for each tick in the order of addition */
  function History(added: seq<Timer>, end: nat): seq<Fired> {
    if end == 0 then [] else History(added, end - 1) + Stamp(Due(added, end - 1), end - 1)
  }

  /** What has fired, together with what is due now, is exactly the history; everything else is still waiting. */
  ghost predicate OnTime(c: Clock) {
    && c.fired + Stamp(Due(c.pending, c.ticks), c.ticks) == History(c.added, c.ticks + 1)
    && (forall n: nat :: n < c.ticks ==> Due(c.pending, n) == [])
    && (forall n: nat :: n > c.ticks ==> Due(c.pending, n) == Due(c.added, n))
  }

  lemma Rejoined(t: Timer, a: seq<Timer>, b: seq<Timer>)
    ensures [t] + (a + b) == [t] + a + b
  {
  }

  lemma {:induction false} DueAppend(a: seq<Timer>, b: seq<Timer>, n: nat)
    ensures Due(a + b, n) == Due(a, n) + Due(b, n)
  {
    if a == [] {
      assert a + b == b;
      assert [] + Due(b, n) == Due(b, n);
    } else {
      DueAppend(a[1..], b, n);
      assert (a + b)[1..] == a[1..] + b && (a + b)[0] == a[0];
      Rejoined(a[0], Due(a[1..], n), Due(b, n));
    }
  }

  lemma {:induction false} StampAppend(a: seq<Timer>, b: seq<Timer>, n: nat)
    ensures Stamp(a + b, n) == Stamp(a, n) + Stamp(b, n)
  {
    if a == [] {
      assert a + b == b;
    } else {
      StampAppend(a[1..], b, n);
      assert (a + b)[0] == a[0] && (a + b)[1..] == a[1..] + b;
      assert [Fired(a[0], n)] + (Stamp(a[1..], n) + Stamp(b, n)) == [Fired(a[0], n)] + Stamp(a[1..], n) + Stamp(b, n);
    }
  }

  lemma {:induction false} DueOthers(ps: seq<Timer>, tick: nat, n: nat)
    ensures n != tick ==> Due(NotDue(ps, tick), n) == Due(ps, n)
  {
    if ps != [] {
      DueOthers(ps[1..], tick, n);
      var rest := NotDue(ps[1..], tick);
      assert ([ps[0]] + rest)[1..] == rest;
    }
  }

  lemma DueOne(ps: seq<Timer>, t: Timer, n: nat)
    ensures Due(ps + [t], n) == if t.due == n then Due(ps, n) + [t] else Due(ps, n)
  {
    DueAppend(ps, [t], n);
    assert Due([t], n) == if t.due == n then [t] else [];
    assert Due(ps, n) + [] == Due(ps, n);
  }

  /** A later timer does not change the history. */
  lemma {:induction false} HistoryLater(added: seq<Timer>, t: Timer, end: nat)
    requires end <= t.due
    ensures History(added + [t], end) == History(added, end)
  {
    if end > 0 {
      HistoryLater(added, t, end - 1);
      DueOne(added, t, end - 1);
    }
  }

  lemma AddOnTime(c: Clock, r: Request)
    requires ValidRequest(r) && OnTime(c)
    ensures OnTime(Add(c, r))
  {
    hide Due, Stamp;
    var t := Timer(r.event, c.ticks + r.time);
    forall n: nat
      ensures Due(c.pending + [t], n) == if t.due == n then Due(c.pending, n) + [t] else Due(c.pending, n)
      ensures Due(c.added + [t], n) == if t.due == n then Due(c.added, n) + [t] else Due(c.added, n)
    {
      DueOne(c.pending, t, n);
      DueOne(c.added, t, n);
    }
    if r.time > 0 {
      HistoryLater(c.added, t, c.ticks + 1);
    } else {
      AddDueNow(c, t);
    }
  }

  /** A timer that is due at once goes behind everything else that is due now. */
  lemma AddDueNow(c: Clock, t: Timer)
    requires OnTime(c) && t.due == c.ticks
    ensures c.fired + Stamp(Due(c.pending + [t], c.ticks), c.ticks) == History(c.added + [t], c.ticks + 1)
  {
    hide Due, Stamp;
    DueOne(c.pending, t, c.ticks);
    DueOne(c.added, t, c.ticks);
    HistoryLater(c.added, t, c.ticks);
    StampAppend(Due(c.pending, c.ticks), [t], c.ticks);
    StampAppend(Due(c.added, c.ticks), [t], c.ticks);
    var now := Stamp([t], c.ticks);
    calc {
      History(c.added + [t], c.ticks + 1);
      History(c.added, c.ticks) + (Stamp(Due(c.added, c.ticks), c.ticks) + now);
      History(c.added, c.ticks + 1) + now;
      c.fired + Stamp(Due(c.pending, c.ticks), c.ticks) + now;
      c.fired + (Stamp(Due(c.pending, c.ticks), c.ticks) + now);
    }
  }

  lemma {:induction false} AddAllOnTime(c: Clock, rs: seq<Request>)
    requires ValidRequests(rs) && OnTime(c)
    ensures OnTime(AddAll(c, rs))
    decreases |rs|
  {
    if rs != [] {
      AddOnTime(c, rs[0]);
      AddAllOnTime(Add(c, rs[0]), rs[1..]);
    }
  }

  lemma FireOnTime(c: Clock)
    requires OnTime(c)
    ensures OnTime(Fire(c))
  {
    NothingLeft(c.pending, c.ticks);
    forall n: nat | n != c.ticks ensures Due(Fire(c).pending, n) == Due(c.pending, n) {
      DueOthers(c.pending, c.ticks, n);
    }
  }

  lemma {:induction false} ExecuteOnTime(c: Clock, others: seq<seq<Request>>)
    requires ValidBatches(others) && OnTime(c)
    ensures var e := Execute(c, others); OnTime(e) && e.ticks == c.ticks && Due(e.pending, e.ticks) == []
    decreases |others|
  {
    if Due(c.pending, c.ticks) != [] {
      FireOnTime(c);
      NothingLeft(c.pending, c.ticks);
      if others != [] {
        AddAllOnTime(Fire(c), others[0]);
        ExecuteOnTime(AddAll(Fire(c), others[0]), others[1..]);
      }
    }
  }

  lemma UpdateOnTime(c: Clock, before: seq<seq<Request>>, after: seq<seq<Request>>)
    requires ValidBatches(before) && ValidBatches(after) && OnTime(c)
    ensures var u := Update(c, before, after); OnTime(u) && u.ticks == c.ticks + 1 && Due(u.pending, u.ticks) == []
  {
    ExecuteOnTime(c, before);
    var e := Execute(c, before);
    assert e.fired + [] == e.fired;
    ExecuteOnTime(Tick(e), after);
  }

  lemma StartOnTime()
    ensures OnTime(START)
  {
    assert History([], 1) == History([], 0) + [];
  }

  lemma NothingWaits(c: Clock)
    requires OnTime(c) && Due(c.pending, c.ticks) == []
    ensures c.fired == History(c.added, c.ticks + 1)
  {
    assert c.fired + [] == c.fired;
  }

  /** On every run the timers fire exactly as they should: each once, at the tick at which it is due. */
  lemma {:induction false} RunOnTime(steps: seq<Step>)
    requires ValidSteps(steps)
    ensures OnTime(Run(steps)) && Run(steps).ticks == Updates(steps)
    ensures steps != [] && steps[|steps| - 1].Elapse? ==> Run(steps).fired == History(Run(steps).added, Updates(steps) + 1)
  {
    hide Due, OnTime, History, Update;
    if steps != [] {
      var init, last := steps[..|steps| - 1], steps[|steps| - 1];
      RunOnTime(init);
      match last
      case AddTimer(r) => AddOnTime(Run(init), r);
      case Elapse(before, after) =>
        UpdateOnTime(Run(init), before, after);
        NothingWaits(Run(steps));
    } else {
      StartOnTime();
    }
  }

  /** The timers that fired at one tick */
  function FiredAt(fired: seq<Fired>, n: nat): seq<Timer> {
    if fired == [] then []
    else if fired[0].tick == n then [fired[0].timer] + FiredAt(fired[1..], n)
    else FiredAt(fired[1..], n)
  }

  lemma {:induction false} FiredAtAppend(a: seq<Fired>, b: seq<Fired>, n: nat)
    ensures FiredAt(a + b, n) == FiredAt(a, n) + FiredAt(b, n)
  {
    if a == [] {
      assert a + b == b;
    } else {
      FiredAtAppend(a[1..], b, n);
      assert (a + b)[0] == a[0] && (a + b)[1..] == a[1..] + b;
      assert [a[0].timer] + (FiredAt(a[1..], n) + FiredAt(b, n)) == [a[0].timer] + FiredAt(a[1..], n) + FiredAt(b, n);
    }
  }

  lemma {:induction false} FiredAtStamp(ps: seq<Timer>, tick: nat, n: nat)
    ensures FiredAt(Stamp(ps, tick), n) == if n == tick then ps else []
  {
    if ps != [] {
      FiredAtStamp(ps[1..], tick, n);
      var rest := Stamp(ps[1..], tick);
      assert ([Fired(ps[0], tick)] + rest)[1..] == rest;
    }
  }

  lemma {:induction false} HistoryAt(added: seq<Timer>, end: nat, n: nat)
    ensures FiredAt(History(added, end), n) == if n < end then Due(added, n) else []
  {
    if end > 0 {
      HistoryAt(added, end - 1, n);
      FiredAtAppend(History(added, end - 1), Stamp(Due(added, end - 1), end - 1), n);
      FiredAtStamp(Due(added, end - 1), end - 1, n);
    }
  }

  lemma {:induction false} AddedGrows(steps: seq<Step>, more: seq<Step>)
    requires ValidSteps(steps + more)
    ensures ValidSteps(steps) && Run(steps).added <= Run(steps + more).added
  {
    assert forall k :: 0 <= k < |steps| ==> steps[k] == (steps + more)[k];
    if more == [] {
      assert steps + more == steps;
    } else {
      var init, last := more[..|more| - 1], more[|more| - 1];
      assert (steps + more)[..|steps + more| - 1] == steps + init;
      assert forall k :: 0 <= k < |steps + init| ==> (steps + init)[k] == (steps + more)[k];
      AddedGrows(steps, init);
      assert last == (steps + more)[|steps + more| - 1];
      TakeAdds(Run(steps + init), last);
    }
  }

  lemma TakeAdds(c: Clock, step: Step)
    requires ValidStep(step)
    ensures c.added <= Take(c, step).added
  {
    match step
    case AddTimer(_) =>
    case Elapse(before, after) =>
      ExecuteAdds(c, before);
      ExecuteAdds(Tick(Execute(c, before)), after);
  }

  lemma {:induction false} ExecuteAdds(c: Clock, others: seq<seq<Request>>)
    requires ValidBatches(others)
    ensures c.added <= Execute(c, others).added
    decreases |others|
  {
    if Due(c.pending, c.ticks) != [] && others != [] {
      AddAllAdds(Fire(c), others[0]);
      ExecuteAdds(AddAll(Fire(c), others[0]), others[1..]);
    }
  }

  lemma {:induction false} AddAllAdds(c: Clock, rs: seq<Request>)
    requires ValidRequests(rs)
    ensures c.added <= AddAll(c, rs).added
    decreases |rs|
  {
    if rs != [] {
      AddAllAdds(Add(c, rs[0]), rs[1..]);
    }
  }

  /** A timer added with timeout `r.time` fires in the update that makes it the `r.time`-th after the addition, and in
      no other: whatever else is added before and after, however long the run. The timers of one tick fire in the
      order of addition. */
  lemma FiresOnTime(steps: seq<Step>, r: Request, more: seq<Step>, n: nat)
    requires ValidRequest(r) && ValidSteps(steps + [AddTimer(r)] + more) && more != [] && more[|more| - 1].Elapse?
    ensures ValidSteps(steps)
    ensures var c, at := Run(steps + [AddTimer(r)] + more), |Run(steps).added|;
            && at < |c.added| && c.added[at] == Timer(r.event, Updates(steps) + r.time)
            && c.ticks == Updates(steps) + Updates(more)
            && FiredAt(c.fired, n) == if n <= c.ticks then Due(c.added, n) else []
  {
    var start := steps + [AddTimer(r)];
    var all := start + more;
    AddedGrows(start, more);
    AddedGrows(steps, [AddTimer(r)]);
    assert start[..|start| - 1] == steps;
    RunOnTime(steps);
    RunOnTime(all);
    HistoryAt(Run(all).added, Run(all).ticks + 1, n);
    UpdatesAppend(start, more);
  }

  lemma {:induction false} UpdatesAppend(steps: seq<Step>, more: seq<Step>)
    ensures Updates(steps + more) == Updates(steps) + Updates(more)
  {
    if more == [] {
      assert steps + more == steps;
    } else {
      assert (steps + more)[..|steps + more| - 1] == steps + more[..|more| - 1];
      UpdatesAppend(steps, more[..|more| - 1]);
    }
  }

  /** The wheel, taken through a run */
  method Drive(steps: seq<Step>) returns (sent: seq<Event>)
    requires ValidSteps(steps)
    ensures sent == Sent(Run(steps).fired)
  {
    var w := new Wheel();
    var k := 0;
    assert steps[..0] == [];
    while k < |steps|
      invariant 0 <= k <= |steps| && w.Valid() && w.clock == Run(steps[..k])
      invariant fresh(w) && fresh(w.near) && fresh(w.levels)
    {
      assert steps[..k + 1][..k] == steps[..k];
      match steps[k] {
        case AddTimer(r) => w.TimerAdd(r);
        case Elapse(before, after) => w.TimerUpdate(before, after);
      }
      k := k + 1;
    }
    assert steps[..k] == steps;
    return w.sent;
  }
}
