/** The leverage programme whose opens pre-fund its closes: notional, the pool of deliverable
    stablecoin, and the yearly books, one step a day over any price path. */
module LevSim4 {
  import opened Leverage
  import opened Reals
  import opened Wrappers

  const RATE := 0.07
  const PENALTY := 0.05
  const POOL_SHARE := 0.75
  const SPREAD := 0.001
  const K := 0.71
  const RANGE := 0.02
  const F := 0.02

  /** Target notional, liquidation drawdown, initial pool, and the terms of outside sourcing; `debt`
      is the borrowed part of a notional and `book` a day's profit and loss. */
  datatype Params = Params(target: real, ddliq: real, spInit: real, extDay: real,
                           debt: real -> real, premium: real -> real, book: (Move, real, real) -> Book)

  datatype Day = Day(price: real, ret: real, year: nat)

  datatype Book = Book(interest: real, penalty: real, spread: real, carry: real, gap: real, squeeze: real) {
    function Net(): real {
      interest + penalty + spread + carry + gap + squeeze
    }

    function Plus(o: Book): (b: Book)
      ensures b.Net() == Net() + o.Net()
    {
      Book(interest + o.interest, penalty + o.penalty, spread + o.spread, carry + o.carry, gap + o.gap,
           squeeze + o.squeeze)
    }
  }

  const EMPTY := Book(0.0, 0.0, 0.0, 0.0, 0.0, 0.0)

  // ---- the notional ----

  datatype Move = Move(notional: real, peak: real, op: real, dv: real, lq: real)

  function Moved(c: Params, notional: real, peak0: real, d: Day): Move
    requires 0.0 < peak0
  {
    var peak := Max(d.price, peak0);
    var drawdown := 1.0 - d.price / peak;
    var size := Abs(d.ret);
    if notional > 0.0 && drawdown > c.ddliq then Move(0.0, d.price, 0.0, 0.0, notional)
    else if notional > 0.0 && size > 0.05 then
      var dv := DeleverSize(notional, size);
      Move(notional - dv, peak, 0.0, dv, 0.0)
    else if notional < c.target && size < 0.03 && drawdown < 0.05 then
      var op := OpenSize(c.target, notional);
      Move(notional + op, peak, op, 0.0, 0.0)
    else Move(notional, peak, 0.0, 0.0, 0.0)
  }

  /** A day opens, closes or liquidates, never more than is there, and accounts for the change. */
  ghost predicate Accounts(notional: real, m: Move) {
    && m.notional == notional + m.op - m.dv - m.lq
    && 0.0 <= m.op && 0.0 <= m.dv <= notional && 0.0 <= m.lq <= notional
    && (m.lq > 0.0 ==> m.lq == notional && m.op == 0.0 && m.dv == 0.0)
    && (m.dv > 0.0 ==> m.op == 0.0)
  }

  lemma MovedAccounts(c: Params, notional: real, peak: real, d: Day)
    requires 0.0 <= notional && 0.0 < peak && 0.0 < d.price
    ensures var m := Moved(c, notional, peak, d);
      Accounts(notional, m) && 0.0 <= m.notional && 0.0 < m.peak
  {
    DeleverBounds(notional, Abs(d.ret));
    if notional < c.target { OpenBounds(c.target, notional); }
  }

  // ---- the pool ----

  /** What the pool pays out to delevering positions, and what has to be bought outside. */
  datatype Delivery = Delivery(sp: real, bought: real, brick: nat)

  function Deliver(c: Params, sp: real, need: real): Delivery {
    if need > 0.0 then
      var take := Min(sp, need);
      var short := need - take;
      if short > 0.000000000001 then
        var src := Min(c.extDay, short);
        Delivery(sp - take, src, if short - src > 0.000000001 then 1 else 0)
      else Delivery(sp - take, 0.0, 0)
    else Delivery(sp, 0.0, 0)
  }

  function Burn(c: Params, sp: real, m: Move): real {
    if m.lq > 0.0 then sp - Min(sp, c.debt(m.lq)) else sp
  }

  // ---- the day's book ----

  function GapOf(size: real): real {
    Max(0.0, size - (1.0 - 1.0 / MCR))
  }

  function LiquidationBook(dpf: real, m: Move, size: real): Book {
    if m.lq > 0.0 then
      var gap := GapOf(size);
      EMPTY.(penalty := Max(0.0, PENALTY - gap) * m.lq * dpf,
             gap := if gap > 0.0 then -(gap * m.lq * dpf) else 0.0)
    else EMPTY
  }

  function CarryBook(dpf: real, m: Move, ret: real): Book {
    var amp := m.notional * dpf;
    EMPTY.(interest := m.notional * dpf * RATE * POOL_SHARE / 365.0,
           spread := (m.op + m.dv + m.lq) * SPREAD,
           carry := F * amp / 365.0 - K * amp * Min(ret * ret, RANGE * RANGE))
  }

  /** `paid` is the premium on what was bought outside. */
  function DayBook(dpf: real, m: Move, paid: real, ret: real): Book {
    EMPTY.(squeeze := -paid).Plus(LiquidationBook(dpf, m, Abs(ret))).Plus(CarryBook(dpf, m, ret))
  }

  // ---- the state ----

  datatype State = State(notional: real, peak: real, sp: real, cum: real, req: real, sqz: real, brick: nat,
                         minSp: real, cover: real, books: map<nat, Book>)

  function Covered(cover: real, sp: real, demand: real): real {
    if demand > 0.000000001 then Min(cover, sp / demand) else cover
  }

  function Posted(books: map<nat, Book>, year: nat, b: Book): map<nat, Book> {
    books[year := (if year in books then books[year] else EMPTY).Plus(b)]
  }

  /** One day's flows through the pool and the books. */
  function Apply(c: Params, s: State, d: Day, m: Move): State {
    var (inflow, need) := (c.debt(m.op), c.debt(m.dv));
    var paid := Deliver(c, s.sp + inflow, need);
    var premium := c.premium(paid.bought);
    var sp := Burn(c, paid.sp, m);
    var cum := s.cum + (inflow - (need + c.debt(m.lq)));
    State(m.notional, m.peak, sp, cum, Max(s.req, -cum), s.sqz + premium, s.brick + paid.brick, Min(s.minSp, sp),
          Covered(s.cover, sp, c.debt(m.notional)), Posted(s.books, d.year, c.book(m, premium, d.ret)))
  }

  function Step(c: Params, s: State, d: Day): State
    requires 0.0 < s.peak
  {
    Apply(c, s, d, Moved(c, s.notional, s.peak, d))
  }

  // ---- the identity ----

  /** Self-funding: the pool is its initial balance plus the debt part of the open notional. */
  ghost predicate Funded(c: Params, s: State) {
    && 0.0 <= s.notional && 0.0 < s.peak
    && s.sp == c.spInit + c.debt(s.notional)
    && s.cum == c.debt(s.notional)
    && s.req == 0.0 && s.sqz == 0.0 && s.brick == 0
    && s.minSp == c.spInit
    && 1.0 <= s.cover
  }

  /** The borrowed part is additive, and nothing for nothing. */
  ghost predicate Valid(c: Params) {
    && 0.0 <= c.spInit
    && (forall a, b :: Adds(c.debt, a, b))
    && (forall a | 0.0 <= a :: Pays(c.debt, a))
    && c.premium(0.0) == 0.0
  }

  /** What one day's flows do to the borrowed part. */
  lemma DebtFlows(c: Params, n: real, m: Move)
    requires Valid(c) && 0.0 <= n && Accounts(n, m)
    ensures c.debt(m.notional) == c.debt(n) + c.debt(m.op) - c.debt(m.dv) - c.debt(m.lq)
    ensures 0.0 <= c.debt(m.op) && 0.0 <= c.debt(m.dv) <= c.debt(n) && 0.0 <= c.debt(m.lq) <= c.debt(n)
    ensures 0.0 <= c.debt(m.notional)
    ensures m.lq == 0.0 ==> c.debt(m.lq) == 0.0
  {
    assert Adds(c.debt, 0.0, 0.0);
    assert Adds(c.debt, n - m.dv, m.dv) && Adds(c.debt, n - m.lq, m.lq);
    assert Adds(c.debt, n, m.op) && Adds(c.debt, m.notional + m.dv, m.lq) && Adds(c.debt, m.notional, m.dv);
    assert Pays(c.debt, m.op) && Pays(c.debt, m.dv) && Pays(c.debt, m.lq) && Pays(c.debt, m.notional);
    assert Pays(c.debt, n - m.dv) && Pays(c.debt, n - m.lq);
    assert n + m.op == m.notional + m.dv + m.lq;
  }

  lemma CoveredAtLeastOne(cover: real, sp: real, demand: real)
    requires 1.0 <= cover && demand <= sp
    ensures 1.0 <= Covered(cover, sp, demand)
  {
    if demand > 0.000000001 { DivBelow(sp, demand, 1.0); }
  }

  lemma ApplyFunded(c: Params, s: State, d: Day, m: Move)
    requires Valid(c) && Funded(c, s) && Accounts(s.notional, m) && 0.0 <= m.notional && 0.0 < m.peak
    ensures Funded(c, Apply(c, s, d, m))
  {
    DebtFlows(c, s.notional, m);
    CoveredAtLeastOne(s.cover, c.spInit + c.debt(m.notional), c.debt(m.notional));
  }

  lemma StepFunded(c: Params, s: State, d: Day)
    requires Valid(c) && Funded(c, s) && 0.0 < d.price
    ensures Funded(c, Step(c, s, d))
  {
    MovedAccounts(c, s.notional, s.peak, d);
    ApplyFunded(c, s, d, Moved(c, s.notional, s.peak, d));
  }

  // ---- whole runs ----

  ghost predicate Path(start: real, days: seq<Day>) {
    0.0 < start && forall d | d in days :: 0.0 < d.price
  }

  function Opening(c: Params, start: real): State {
    State(0.0, start, c.spInit, 0.0, 0.0, 0.0, 0, c.spInit, 9.9, map[])
  }

  /** The state after the first `n` days. */
  function After(c: Params, start: real, days: seq<Day>, n: nat): (s: State)
    requires 0.0 < start && n <= |days| && forall d | d in days :: 0.0 < d.price
    ensures 0.0 < s.peak
  {
    if n == 0 then Opening(c, start) else Step(c, After(c, start, days, n - 1), days[n - 1])
  }

  /** The programme funds itself on every price path: the pool is always what it opened with plus the
      debt part of what is open, so nothing is ever short, nothing is bought outside, no extra buffer
      is needed, and a run on every position at once is covered. */
  lemma {:induction false} SelfFunding(c: Params, start: real, days: seq<Day>, n: nat)
    requires Valid(c) && Path(start, days) && n <= |days|
    ensures Funded(c, After(c, start, days, n))
  {
    if n == 0 {
      assert Adds(c.debt, 0.0, 0.0);
    } else {
      SelfFunding(c, start, days, n - 1);
      StepFunded(c, After(c, start, days, n - 1), days[n - 1]);
    }
  }

  // ---- the books ----

  /** A day's book with no premium paid. */
  ghost function Earning(c: Params, s: State, d: Day): Book
    requires 0.0 < s.peak
  {
    c.book(Moved(c, s.notional, s.peak, d), 0.0, d.ret)
  }

  /** What day `i` earns. */
  ghost function DayNet(c: Params, start: real, days: seq<Day>, i: nat): real
    requires Path(start, days) && i < |days|
  {
    Earning(c, After(c, start, days, i), days[i]).Net()
  }

  /** The sum of the first `n` days' earnings, of one year or of all. */
  ghost function Earned(c: Params, start: real, days: seq<Day>, year: Option<nat>, n: nat): real
    requires Path(start, days) && n <= |days|
  {
    if n == 0 then 0.0
    else
      Earned(c, start, days, year, n - 1)
      + if year == None || year == Some(days[n - 1].year) then DayNet(c, start, days, n - 1) else 0.0
  }

  ghost function YearNet(books: map<nat, Book>, y: nat): real {
    if y in books then books[y].Net() else 0.0
  }

  ghost function TotalNet(books: map<nat, Book>): real {
    SumYears(books, books.Keys)
  }

  ghost function SumYears(books: map<nat, Book>, years: set<nat>): real {
    if years == {} then 0.0 else var y :| y in years; YearNet(books, y) + SumYears(books, years - {y})
  }

  lemma {:induction false} SumYearsWithout(books: map<nat, Book>, years: set<nat>, y: nat)
    requires y in years
    ensures SumYears(books, years) == YearNet(books, y) + SumYears(books, years - {y})
    decreases |years|
  {
    var k :| k in years && SumYears(books, years) == YearNet(books, k) + SumYears(books, years - {k});
    if k != y {
      SumYearsWithout(books, years - {k}, y);
      SumYearsWithout(books, years - {y}, k);
      assert years - {k} - {y} == years - {y} - {k};
    }
  }

  lemma {:induction false} SumYearsSame(b1: map<nat, Book>, b2: map<nat, Book>, years: set<nat>)
    requires forall y | y in years :: YearNet(b1, y) == YearNet(b2, y)
    ensures SumYears(b1, years) == SumYears(b2, years)
    decreases |years|
  {
    if years != {} {
      var y :| y in years;
      SumYearsWithout(b1, years, y);
      SumYearsWithout(b2, years, y);
      SumYearsSame(b1, b2, years - {y});
    }
  }

  /** Posting a book changes one year's net and the total by that book's net, and nothing else. */
  lemma PostedNet(books: map<nat, Book>, year: nat, b: Book)
    ensures var after := Posted(books, year, b);
      && TotalNet(after) == TotalNet(books) + b.Net()
      && YearNet(after, year) == YearNet(books, year) + b.Net()
      && forall y | y != year :: YearNet(after, y) == YearNet(books, y)
  {
    var after := Posted(books, year, b);
    var rest := books.Keys - {year};
    assert after.Keys - {year} == rest;
    SumYearsWithout(after, after.Keys, year);
    SumYearsSame(books, after, rest);
    if year in books {
      SumYearsWithout(books, books.Keys, year);
    } else {
      assert books.Keys == rest;
    }
  }

  ghost predicate Sums(c: Params, start: real, days: seq<Day>, n: nat, books: map<nat, Book>)
    requires Path(start, days) && n <= |days|
  {
    && TotalNet(books) == Earned(c, start, days, None, n)
    && forall y :: YearNet(books, y) == Earned(c, start, days, Some(y), n)
  }

  ghost predicate Balances(c: Params, start: real, days: seq<Day>, n: nat)
    requires Path(start, days) && n <= |days|
  {
    Sums(c, start, days, n, After(c, start, days, n).books)
  }

  /** Every day's earnings are posted once, to its own year. */
  lemma {:induction false} BooksBalance(c: Params, start: real, days: seq<Day>, n: nat)
    requires Valid(c) && Path(start, days) && n <= |days|
    ensures Balances(c, start, days, n)
  {
    if n == 0 {
      NothingPosted(c, start, days);
    } else {
      BooksBalance(c, start, days, n - 1);
      SelfFunding(c, start, days, n - 1);
      BalanceFrom(c, start, days, n, After(c, start, days, n - 1), After(c, start, days, n));
    }
  }

  lemma NothingPosted(c: Params, start: real, days: seq<Day>)
    requires Path(start, days)
    ensures Sums(c, start, days, 0, map[])
  {
  }

  lemma BalanceFrom(c: Params, start: real, days: seq<Day>, n: nat, was: State, now: State)
    requires Valid(c) && Path(start, days) && 0 < n <= |days| && Funded(c, was)
    requires was == After(c, start, days, n - 1) && now == Step(c, was, days[n - 1])
    requires Sums(c, start, days, n - 1, was.books)
    ensures Sums(c, start, days, n, now.books)
  {
    StepBooks(c, was, days[n - 1]);
    BalanceStep(c, start, days, n, was.books, now.books, Earning(c, was, days[n - 1]));
  }

  lemma StepBooks(c: Params, s: State, d: Day)
    requires Valid(c) && Funded(c, s) && 0.0 < d.price
    ensures Step(c, s, d).books == Posted(s.books, d.year, Earning(c, s, d))
  {
    MovedAccounts(c, s.notional, s.peak, d);
    NoPremium(c, s, Moved(c, s.notional, s.peak, d));
  }

  lemma BalanceStep(c: Params, start: real, days: seq<Day>, n: nat, was: map<nat, Book>, now: map<nat, Book>, b: Book)
    requires Path(start, days) && 0 < n <= |days|
    requires Sums(c, start, days, n - 1, was) && now == Posted(was, days[n - 1].year, b)
    requires b.Net() == DayNet(c, start, days, n - 1)
    ensures Sums(c, start, days, n, now)
  {
    PostedNet(was, days[n - 1].year, b);
  }

  lemma NoPremium(c: Params, s: State, m: Move)
    requires Valid(c) && Funded(c, s) && Accounts(s.notional, m)
    ensures c.premium(Deliver(c, s.sp + c.debt(m.op), c.debt(m.dv)).bought) == 0.0
  {
    DebtFlows(c, s.notional, m);
  }

  // ---- the shipped programme ----

  /** The programme of one call: equity, leverage, buffer held, an optional cap on the notional, and
      the stress sourcing. */
  function Shipped(equity: real, leverage: real, spInit: real, cap: Option<real>, extDay: real, premBps: real): Params
    requires 1.0 <= leverage
  {
    var dpf := DebtFraction(leverage);
    var full := leverage * equity;
    Params(if cap.Some? then Min(full, cap.value) else full, (1.0 / leverage) / MCR, spInit, extDay, x => x * dpf,
           x => x * premBps / 10000.0, (m, paid, ret) => DayBook(dpf, m, paid, ret))
  }

  lemma ShippedIsValid(equity: real, leverage: real, spInit: real, cap: Option<real>, extDay: real, premBps: real)
    requires 1.0 <= leverage && 0.0 <= spInit
    ensures Valid(Shipped(equity, leverage, spInit, cap, extDay, premBps))
  {
    var c, dpf := Shipped(equity, leverage, spInit, cap, extDay, premBps), DebtFraction(leverage);
    DebtFractionBounds(leverage);
    forall a, b
      ensures Adds(c.debt, a, b)
    {
      assert (a + b) * dpf == a * dpf + b * dpf;
    }
    forall a | 0.0 <= a
      ensures Pays(c.debt, a)
    {
      MulNonNeg(a, dpf);
    }
  }

  /** The identity for the simulation as it is called. */
  lemma ShippedFundsItself(
    equity: real, leverage: real, spInit: real, cap: Option<real>, extDay: real, premBps: real, start: real,
    days: seq<Day>, n: nat)
    requires 1.0 <= leverage && 0.0 <= spInit && Path(start, days) && n <= |days|
    ensures var c := Shipped(equity, leverage, spInit, cap, extDay, premBps); Funded(c, After(c, start, days, n))
  {
    ShippedIsValid(equity, leverage, spInit, cap, extDay, premBps);
    SelfFunding(Shipped(equity, leverage, spInit, cap, extDay, premBps), start, days, n);
  }

  /** Adding up the books year by year. */
  method SumBooks(books: map<nat, Book>) returns (net: real)
    ensures net == TotalNet(books)
  {
    net := 0.0;
    var todo := books.Keys;
    while todo != {}
      invariant todo <= books.Keys
      invariant net + SumYears(books, todo) == TotalNet(books)
    {
      var y :| y in todo;
      SumYearsWithout(books, todo, y);
      net := net + books[y].Net();
      todo := todo - {y};
    }
  }

  /** The body of the loop. */
  method Advance(c: Params, s: State, d: Day) returns (t: State)
    requires 0.0 < s.peak
    ensures t == Step(c, s, d)
  {
    var m := Moved(c, s.notional, s.peak, d);
    var inflow := c.debt(m.op);
    var need := c.debt(m.dv);
    var outflow := need + c.debt(m.lq);
    var sp := s.sp + inflow;
    var paid := Deliver(c, sp, need);
    var premium := c.premium(paid.bought);
    sp := paid.sp;
    if m.lq > 0.0 {
      sp := sp - Min(sp, c.debt(m.lq));
    }
    var books := Posted(s.books, d.year, c.book(m, premium, d.ret));
    var cum := s.cum + (inflow - outflow);
    var cover := s.cover;
    var demand := c.debt(m.notional);
    if demand > 0.000000001 {
      cover := Min(cover, sp / demand);
    }
    t := State(m.notional, m.peak, sp, cum, Max(s.req, -cum), s.sqz + premium, s.brick + paid.brick, Min(s.minSp, sp),
               cover, books);
  }

  /** A whole run: the state it ends in is self-funded and its net is what its days earned. */
  method Run(c: Params, start: real, days: seq<Day>) returns (s: State, net: real)
    requires Valid(c) && Path(start, days)
    ensures s == After(c, start, days, |days|) && Funded(c, s)
    ensures net == Earned(c, start, days, None, |days|)
  {
    s := Opening(c, start);
    for i := 0 to |days|
      invariant s == After(c, start, days, i)
    {
      s := Advance(c, s, days[i]);
    }
    SelfFunding(c, start, days, |days|);
    BooksBalance(c, start, days, |days|);
    net := SumBooks(s.books);
  }
}
