/** The reduction of a 'pg dump pgs_brief' listing into PG counts per OSD,
    per pool and overall, with the pool number parsed from the PG id.  The
    agent's loop is `Summarize`; `Reduce` is the same reduction as a fold, and
    the lemmas say what its tables count. */
module PgSummary {
  import opened Wrappers

  /** One row of 'pg dump pgs_brief': the acting OSDs, the PG id text
      (e.g. "3.1a") and the state label (e.g. "active+clean"). */
  datatype PgRecord = PgRecord(acting: seq<int>, pgid: string, state: string)

  type Counts = map<string, nat>
  type Table = map<int, Counts>

  /** The three dictionaries pg_summary returns: 'by_osd', 'by_pool', 'all'. */
  datatype Summary = Summary(byOsd: Table, byPool: Table, all: Counts)

  const Empty: Summary := Summary(map[], map[], map[])

  /** A count, with an absent key read as zero. */
  function Get(c: Counts, s: string): nat { if s in c then c[s] else 0 }

  /** A row of a table, with an absent key read as the empty dict. */
  function Row(t: Table, k: int): Counts { if k in t then t[k] else map[] }

  function Cell(t: Table, k: int, s: string): nat { Get(Row(t, k), s) }

  // ---------------------------------------------------------------------
  // The pool number: int(pgid.split('.')[0])
  // ---------------------------------------------------------------------

  /** `s.split('.')[0]`: the text before the first '.', or all of `s`. */
  function BeforeFirstDot(s: string): (r: string)
    ensures r <= s && '.' !in r
    ensures r == s || s[|r|] == '.'
  {
    if s == [] || s[0] == '.' then [] else [s[0]] + BeforeFirstDot(s[1..])
  }

  /** The characters Python 2's str.strip() and int() treat as white space. */
  predicate IsSpace(c: char) {
    c == ' ' || c == '\t' || c == '\n' || c == '\r' || c == '\U{000B}' || c == '\U{000C}'
  }

  /** `s` with its leading white space skipped. */
  function TrimLeft(s: string): string {
    if s != [] && IsSpace(s[0]) then TrimLeft(s[1..]) else s
  }

  /** `s` with its trailing white space skipped. */
  function TrimRight(s: string): string {
    if s != [] && IsSpace(s[|s| - 1]) then TrimRight(s[..|s| - 1]) else s
  }

  predicate IsSign(c: char) { c == '+' || c == '-' }

  predicate IsDigit(c: char) { '0' <= c <= '9' }

  predicate AllDigits(s: string) { forall i :: 0 <= i < |s| ==> IsDigit(s[i]) }

  /** The value of a decimal numeral, most significant digit first. */
  function DigitsValue(s: string): nat
    requires AllDigits(s)
  {
    if s == [] then 0
    else 10 * DigitsValue(s[..|s| - 1]) + (s[|s| - 1] as int - '0' as int)
  }

  /** Python 2's `int(s)` in base 10: white space, an optional sign, white
      space again (strtoul skips it after strtol has read the sign), at least
      one decimal digit, then white space; anything else is a ValueError. */
  function ParseInt(s: string): (r: Result<int, Error>)
    ensures r.Failure? ==> r.error == ValueError(s)
  {
    var t := TrimRight(TrimLeft(s));
    if |t| > 0 && IsSign(t[0]) then
      var d := TrimLeft(t[1..]);
      if |d| > 0 && AllDigits(d) then
        var v: int := DigitsValue(d);
        Success(if t[0] == '-' then -v else v)
      else Failure(ValueError(s))
    else if |t| > 0 && AllDigits(t) then Success(DigitsValue(t))
    else Failure(ValueError(s))
  }

  lemma {:induction false} TrimLeftShape(s: string)
    ensures var r := TrimLeft(s);
      && |r| <= |s| && r == s[|s| - |r|..]
      && (forall k :: 0 <= k < |s| - |r| ==> IsSpace(s[k]))
      && (r != [] ==> !IsSpace(r[0]))
    decreases |s|
  {
    if s != [] && IsSpace(s[0]) {
      TrimLeftShape(s[1..]);
    }
  }

  lemma {:induction false} TrimRightShape(s: string)
    ensures var r := TrimRight(s);
      && |r| <= |s| && r == s[..|r|]
      && (forall k :: |r| <= k < |s| ==> IsSpace(s[k]))
      && (r != [] ==> !IsSpace(r[|r| - 1]))
    decreases |s|
  {
    if s != [] && IsSpace(s[|s| - 1]) {
      TrimRightShape(s[..|s| - 1]);
    }
  }

  /** The trimmed text sits in `s` at `lead`, with only white space around
      it. */
  lemma TrimmedAt(s: string) returns (lead: nat)
    ensures var t := TrimRight(TrimLeft(s));
      && lead + |t| <= |s| && s[lead..lead + |t|] == t
      && forall k :: 0 <= k < |s| && !(lead <= k < lead + |t|) ==> IsSpace(s[k])
  {
    var l := TrimLeft(s);
    TrimLeftShape(s);
    TrimRightShape(l);
    lead := |s| - |l|;
  }

  predicate NumeralChar(c: char) { IsSpace(c) || IsDigit(c) || IsSign(c) }

  /** A signed numeral as ParseInt accepts it: the sign, white space, then
      digits up to its last character. */
  lemma SignedChars(t: string)
    requires |t| > 0 && IsSign(t[0])
    requires |TrimLeft(t[1..])| > 0 && AllDigits(TrimLeft(t[1..]))
    ensures forall k :: 0 <= k < |t| ==> NumeralChar(t[k])
    ensures IsDigit(t[|t| - 1])
  {
    var rest := t[1..];
    var d := TrimLeft(rest);
    TrimLeftShape(rest);
    var gap := |rest| - |d|;
    forall k | 0 <= k < |t|
      ensures NumeralChar(t[k])
    {
      if k > 0 {
        assert t[k] == rest[k - 1];
        if k - 1 >= gap {
          assert rest[k - 1] == d[k - 1 - gap];
          assert IsDigit(d[k - 1 - gap]);
        }
      }
    }
    assert t[|t| - 1] == d[|d| - 1];
  }

  /** A text int() accepts holds only white space, signs and digits, with
      at least one digit, and a negative value needs a '-'. */
  lemma ParseIntAccepts(s: string)
    requires ParseInt(s).Success?
    ensures forall k :: 0 <= k < |s| ==> IsSpace(s[k]) || IsDigit(s[k]) || IsSign(s[k])
    ensures exists k :: 0 <= k < |s| && IsDigit(s[k])
    ensures ParseInt(s).value < 0 ==> exists k :: 0 <= k < |s| && s[k] == '-'
  {
    var t := TrimRight(TrimLeft(s));
    var lead := TrimmedAt(s);
    if IsSign(t[0]) {
      SignedChars(t);
    }
    assert forall k :: 0 <= k < |t| ==> NumeralChar(t[k]);
    assert forall k :: lead <= k < lead + |t| ==> s[k] == t[k - lead];
    assert IsDigit(s[lead + |t| - 1]);
    assert s[lead] == t[0];
  }

  /** The canonical decimal numeral of `n`, as str(n) writes it. */
  function ShowNat(n: nat): (r: string)
    ensures |r| > 0 && AllDigits(r)
  {
    if n < 10 then [('0' as int + n) as char]
    else ShowNat(n / 10) + [('0' as int + n % 10) as char]
  }

  lemma {:induction false} DigitsValueShowNat(n: nat)
    ensures DigitsValue(ShowNat(n)) == n
  {
    if n >= 10 {
      var r := ShowNat(n);
      assert r[..|r| - 1] == ShowNat(n / 10);
      DigitsValueShowNat(n / 10);
    }
  }

  lemma DigitsHaveNoSpace(s: string)
    requires |s| > 0 && AllDigits(s)
    ensures TrimRight(TrimLeft(s)) == s
  {
    assert !IsSpace(s[0]) && !IsSpace(s[|s| - 1]);
  }

  /** int() reads back every canonical numeral, negative ones included. */
  lemma ParseIntShow(i: int)
    ensures ParseInt(if i < 0 then "-" + ShowNat(-i) else ShowNat(i)) == Success(i)
  {
    if i < 0 {
      SignedNumeral('-', "", -i);
      assert ['-'] + "" + ShowNat(-i) == "-" + ShowNat(-i);
    } else {
      DigitsHaveNoSpace(ShowNat(i));
      DigitsValueShowNat(i);
    }
  }

  lemma {:induction false} TrimLeftSpaces(gap: string, x: string)
    requires forall k :: 0 <= k < |gap| ==> IsSpace(gap[k])
    requires x == [] || !IsSpace(x[0])
    ensures TrimLeft(gap + x) == x
    decreases |gap|
  {
    if gap == [] {
      assert gap + x == x;
    } else {
      assert (gap + x)[1..] == gap[1..] + x;
      TrimLeftSpaces(gap[1..], x);
    }
  }

  lemma SignedNumeral(sign: char, gap: string, n: nat)
    requires IsSign(sign) && forall k :: 0 <= k < |gap| ==> IsSpace(gap[k])
    ensures ParseInt([sign] + gap + ShowNat(n)) == Success(if sign == '-' then -(n as int) else n)
  {
    var digits := ShowNat(n);
    var s := [sign] + gap + digits;
    assert s[|s| - 1] == digits[|digits| - 1];
    assert !IsSpace(s[0]) && !IsSpace(s[|s| - 1]);
    assert TrimRight(TrimLeft(s)) == s;
    assert s[1..] == gap + digits;
    TrimLeftSpaces(gap, digits);
    DigitsValueShowNat(n);
  }

  /** White space between the sign and the digits is skipped, so "- 3"
      reads as -3 and "+ 3" as 3. */
  lemma ParseIntSignGap(gap: string, n: nat)
    requires forall k :: 0 <= k < |gap| ==> IsSpace(gap[k])
    ensures ParseInt("-" + gap + ShowNat(n)) == Success(-(n as int))
    ensures ParseInt("+" + gap + ShowNat(n)) == Success(n)
  {
    SignedNumeral('-', gap, n);
    SignedNumeral('+', gap, n);
  }

  /** The pool a PG belongs to: the integer before the first '.' of its id. */
  function PoolOf(pg: PgRecord): Result<int, Error> {
    ParseInt(BeforeFirstDot(pg.pgid))
  }

  /** A PG id written as "<pool>.<seed>" belongs to pool <pool>, whatever the
      seed text holds (dots included). */
  lemma PoolOfPgid(pool: nat, seed: string, acting: seq<int>, state: string)
    ensures PoolOf(PgRecord(acting, ShowNat(pool) + "." + seed, state)) == Success(pool)
  {
    var n := ShowNat(pool);
    var s := n + "." + seed;
    var r := BeforeFirstDot(s);
    assert s[|n|] == '.';
    assert forall k :: 0 <= k < |n| ==> s[k] == n[k] && s[k] != '.';
    assert r == n;
    DigitsHaveNoSpace(n);
    DigitsValueShowNat(pool);
  }

  // ---------------------------------------------------------------------
  // The reduction as a fold
  // ---------------------------------------------------------------------

  /** `c[s] += 1`, creating the key at 1. */
  function Bump(c: Counts, s: string): Counts { c[s := Get(c, s) + 1] }

  /** `t[k][s] += 1`, creating the row and the key as needed. */
  function BumpCell(t: Table, k: int, s: string): Table { t[k := Bump(Row(t, k), s)] }

  /** One increment of `t[osd][s]` per entry of `acting`, in order. */
  function AddActing(t: Table, acting: seq<int>, s: string): Table {
    if acting == [] then t
    else BumpCell(AddActing(t, acting[..|acting| - 1], s), acting[|acting| - 1], s)
  }

  /** What one PG record adds to the three tables. */
  function Tally(sm: Summary, pg: PgRecord, pool: int): Summary {
    Summary(AddActing(sm.byOsd, pg.acting, pg.state),
            BumpCell(sm.byPool, pool, pg.state),
            Bump(sm.all, pg.state))
  }

  /** The summary of a listing, or the ValueError of the first PG id whose
      pool prefix is not an integer. */
  function Reduce(pgs: seq<PgRecord>): Result<Summary, Error> {
    if pgs == [] then Success(Empty)
    else
      match Reduce(pgs[..|pgs| - 1])
      case Failure(e) => Failure(e)
      case Success(sm) =>
        match PoolOf(pgs[|pgs| - 1])
        case Failure(e) => Failure(e)
        case Success(pool) => Success(Tally(sm, pgs[|pgs| - 1], pool))
  }

  // ---------------------------------------------------------------------
  // The loop
  // ---------------------------------------------------------------------

  /** pg_summary: one pass over the records, updating the three dicts. */
  method Summarize(pgs: seq<PgRecord>) returns (r: Result<Summary, Error>)
    ensures r == Reduce(pgs)
  {
    var sm := Empty;
    var i := 0;
    while i < |pgs|
      invariant 0 <= i <= |pgs|
      invariant Reduce(pgs[..i]) == Success(sm)
    {
      var next := CountPg(sm, pgs[i]);
      if next.Failure? {
        ReduceFailsAt(pgs, i);
        return Failure(next.error);
      }
      ReduceTallies(pgs, i);
      sm := next.value;
      i := i + 1;
    }
    assert pgs[..i] == pgs;
    return Success(sm);
  }

  /** One iteration of pg_summary's loop: the acting OSDs are counted, then
      the pool prefix is parsed (its ValueError ends the summary), then the
      pool and overall counts are bumped. */
  method CountPg(sm: Summary, pg: PgRecord) returns (r: Result<Summary, Error>)
    ensures PoolOf(pg).Failure? ==> r == Failure(PoolOf(pg).error)
    ensures PoolOf(pg).Success? ==> r == Success(Tally(sm, pg, PoolOf(pg).value))
  {
    var osds := CountActing(sm.byOsd, pg.acting, pg.state);
    var pools := sm.byPool;
    var allPgs := sm.all;
    var pool := ParseInt(BeforeFirstDot(pg.pgid));
    if pool.Failure? {
      return Failure(pool.error);
    }
    var poolStats := if pool.value in pools then pools[pool.value] else map[];
    poolStats := poolStats[pg.state := (if pg.state in poolStats then poolStats[pg.state] else 0) + 1];
    pools := pools[pool.value := poolStats];
    allPgs := allPgs[pg.state := (if pg.state in allPgs then allPgs[pg.state] else 0) + 1];
    return Success(Summary(osds, pools, allPgs));
  }

  /** The inner loop of pg_summary: `osds[osd][state] += 1` for each acting OSD. */
  method CountActing(osds0: Table, acting: seq<int>, state: string) returns (osds: Table)
    ensures osds == AddActing(osds0, acting, state)
  {
    osds := osds0;
    var j := 0;
    while j < |acting|
      invariant 0 <= j <= |acting|
      invariant osds == AddActing(osds0, acting[..j], state)
    {
      var osd := acting[j];
      var osdStats := if osd in osds then osds[osd] else map[];
      osdStats := osdStats[state := (if state in osdStats then osdStats[state] else 0) + 1];
      osds := osds[osd := osdStats];
      AddActingStep(osds0, acting, j, state);
      j := j + 1;
    }
    assert acting[..j] == acting;
  }

  lemma AddActingStep(t: Table, acting: seq<int>, j: nat, s: string)
    requires j < |acting|
    ensures AddActing(t, acting[..j + 1], s) == BumpCell(AddActing(t, acting[..j], s), acting[j], s)
  {
    assert acting[..j + 1][..j] == acting[..j];
  }

  lemma ReduceStep(pgs: seq<PgRecord>, i: nat)
    requires i < |pgs| && Reduce(pgs[..i]).Success?
    ensures Reduce(pgs[..i + 1]) == match PoolOf(pgs[i])
                                    case Failure(e) => Failure(e)
                                    case Success(p) => Success(Tally(Reduce(pgs[..i]).value, pgs[i], p))
  {
    assert pgs[..i + 1][..i] == pgs[..i];
  }

  /** A record whose pool parses adds its tally to the prefix before it. */
  lemma ReduceTallies(pgs: seq<PgRecord>, i: nat)
    requires i < |pgs| && Reduce(pgs[..i]).Success? && PoolOf(pgs[i]).Success?
    ensures Reduce(pgs[..i + 1]) == Success(Tally(Reduce(pgs[..i]).value, pgs[i], PoolOf(pgs[i]).value))
  {
    ReduceStep(pgs, i);
  }

  /** A record whose pool does not parse fails the whole listing. */
  lemma ReduceFailsAt(pgs: seq<PgRecord>, i: nat)
    requires i < |pgs| && Reduce(pgs[..i]).Success? && PoolOf(pgs[i]).Failure?
    ensures Reduce(pgs) == Failure(PoolOf(pgs[i]).error)
  {
    ReduceStep(pgs, i);
    ReduceFailurePersists(pgs, i + 1);
  }

  /** Once a prefix fails, every longer prefix fails with the same error. */
  lemma {:induction false} ReduceFailurePersists(pgs: seq<PgRecord>, k: nat)
    requires k <= |pgs| && Reduce(pgs[..k]).Failure?
    ensures Reduce(pgs) == Reduce(pgs[..k])
    decreases |pgs| - k
  {
    if k < |pgs| {
      assert pgs[..k + 1][..k] == pgs[..k];
      ReduceFailurePersists(pgs, k + 1);
    } else {
      assert pgs[..k] == pgs;
    }
  }

  // ---------------------------------------------------------------------
  // What the tables count
  // ---------------------------------------------------------------------

  /** A quantity counted over the records. */
  datatype Key =
    | StateKey(state: string)               // records in `state`
    | PoolKey(pool: int, state: string)     // records of pool `pool` in `state`
    | OsdKey(osd: int, state: string)       // appearances of `osd` in acting sets of records in `state`

  function Weight(pg: PgRecord, key: Key): nat {
    match key
    case StateKey(s) => if pg.state == s then 1 else 0
    case PoolKey(p, s) => if pg.state == s && PoolOf(pg) == Success(p) then 1 else 0
    case OsdKey(o, s) => if pg.state == s then multiset(pg.acting)[o] else 0
  }

  function Count(pgs: seq<PgRecord>, key: Key): nat {
    if pgs == [] then 0 else Count(pgs[..|pgs| - 1], key) + Weight(pgs[|pgs| - 1], key)
  }

  /** One increment adds one to its own cell and nothing elsewhere. */
  lemma BumpCellFacts(t: Table, k: int, s: string)
    ensures forall o, x :: Cell(BumpCell(t, k, s), o, x) == Cell(t, o, x) + (if o == k && x == s then 1 else 0)
    ensures forall o :: o in BumpCell(t, k, s) <==> o in t || o == k
    ensures forall o, x :: x in Row(BumpCell(t, k, s), o) <==> x in Row(t, o) || (o == k && x == s)
  {
  }

  /** AddActing adds the multiplicity of each OSD in the acting list. */
  lemma {:induction false} AddActingCell(t: Table, acting: seq<int>, s: string)
    ensures forall o, x :: Cell(AddActing(t, acting, s), o, x)
                           == Cell(t, o, x) + (if x == s then multiset(acting)[o] else 0)
    ensures forall o :: o in AddActing(t, acting, s) <==> o in t || o in acting
    ensures forall o, x :: x in Row(AddActing(t, acting, s), o) <==> x in Row(t, o) || (x == s && o in acting)
  {
    if acting != [] {
      var init := acting[..|acting| - 1];
      var last := acting[|acting| - 1];
      AddActingCell(t, init, s);
      BumpCellFacts(AddActing(t, init, s), last, s);
      assert acting == init + [last];
      assert multiset(acting) == multiset(init) + multiset{last};
      forall o ensures o in acting <==> o in init || o == last {
        if o in acting {
          var k :| 0 <= k < |acting| && acting[k] == o;
          if k < |acting| - 1 { assert init[k] == o; }
        }
      }
    }
  }

  /** 'all' counts the records per state; its keys are the states that occur. */
  lemma {:induction false} ReduceAll(pgs: seq<PgRecord>)
    requires Reduce(pgs).Success?
    ensures forall s :: Get(Reduce(pgs).value.all, s) == Count(pgs, StateKey(s))
    ensures forall s :: s in Reduce(pgs).value.all <==> Count(pgs, StateKey(s)) > 0
  {
    if pgs != [] {
      ReduceAll(pgs[..|pgs| - 1]);
    }
  }

  /** 'by_pool' counts the records per pool and state; its keys are the pools
      some record belongs to. */
  lemma ReduceByPool(pgs: seq<PgRecord>)
    requires Reduce(pgs).Success?
    ensures forall p, s :: Cell(Reduce(pgs).value.byPool, p, s) == Count(pgs, PoolKey(p, s))
    ensures forall p, s :: s in Row(Reduce(pgs).value.byPool, p) <==> Count(pgs, PoolKey(p, s)) > 0
    ensures forall p :: p in Reduce(pgs).value.byPool
                        <==> exists pg :: pg in pgs && PoolOf(pg) == Success(p)
  {
    ReduceByPoolCounts(pgs);
    ReduceByPoolKeys(pgs);
  }

  /** A listing that reduces is its last record tallied onto the rest. */
  lemma ReduceLast(pgs: seq<PgRecord>)
    requires pgs != [] && Reduce(pgs).Success?
    ensures Reduce(pgs[..|pgs| - 1]).Success? && PoolOf(pgs[|pgs| - 1]).Success?
    ensures Reduce(pgs).value == Tally(Reduce(pgs[..|pgs| - 1]).value, pgs[|pgs| - 1], PoolOf(pgs[|pgs| - 1]).value)
  {
  }

  /** The records of a listing are those of its front and its last one. */
  lemma MembersLast<T>(s: seq<T>)
    requires s != []
    ensures forall x :: x in s <==> x in s[..|s| - 1] || x == s[|s| - 1]
  {
    assert s == s[..|s| - 1] + [s[|s| - 1]];
  }

  lemma {:induction false} ReduceByPoolCounts(pgs: seq<PgRecord>)
    requires Reduce(pgs).Success?
    ensures forall p, s :: Cell(Reduce(pgs).value.byPool, p, s) == Count(pgs, PoolKey(p, s))
    ensures forall p, s :: s in Row(Reduce(pgs).value.byPool, p) <==> Count(pgs, PoolKey(p, s)) > 0
  {
    if pgs != [] {
      var init := pgs[..|pgs| - 1];
      var last := pgs[|pgs| - 1];
      ReduceLast(pgs);
      ReduceByPoolCounts(init);
      BumpCellFacts(Reduce(init).value.byPool, PoolOf(last).value, last.state);
    }
  }

  lemma {:induction false} ReduceByPoolKeys(pgs: seq<PgRecord>)
    requires Reduce(pgs).Success?
    ensures forall p :: p in Reduce(pgs).value.byPool
                        <==> exists pg :: pg in pgs && PoolOf(pg) == Success(p)
  {
    if pgs != [] {
      var init := pgs[..|pgs| - 1];
      var last := pgs[|pgs| - 1];
      ReduceLast(pgs);
      ReduceByPoolKeys(init);
      MembersLast(pgs);
      BumpCellFacts(Reduce(init).value.byPool, PoolOf(last).value, last.state);
    }
  }

  /** 'by_osd' counts, per OSD and state, the appearances of the OSD in the
      acting sets of records in that state; its keys are the OSDs that appear
      in some acting set. */
  lemma {:induction false} ReduceByOsd(pgs: seq<PgRecord>)
    requires Reduce(pgs).Success?
    ensures forall o, s :: Cell(Reduce(pgs).value.byOsd, o, s) == Count(pgs, OsdKey(o, s))
    ensures forall o, s :: s in Row(Reduce(pgs).value.byOsd, o) <==> Count(pgs, OsdKey(o, s)) > 0
    ensures forall o :: o in Reduce(pgs).value.byOsd
                        <==> exists pg :: pg in pgs && o in pg.acting
  {
    if pgs != [] {
      var init := pgs[..|pgs| - 1];
      var last := pgs[|pgs| - 1];
      ReduceLast(pgs);
      ReduceByOsd(init);
      var t := Reduce(init).value.byOsd;
      var t' := Reduce(pgs).value.byOsd;
      AddActingCell(t, last.acting, last.state);
      forall o, s ensures s in Row(t', o) <==> Count(pgs, OsdKey(o, s)) > 0 {
        assert s in Row(t', o) <==> s in Row(t, o) || (s == last.state && o in last.acting);
      }
      MembersLast(pgs);
    }
  }

  // ---------------------------------------------------------------------
  // Pool totals
  // ---------------------------------------------------------------------

  /** The sum of `t[p][s]` over the pools `ps`. */
  function SumPools(t: Table, ps: seq<int>, s: string): nat {
    if ps == [] then 0 else SumPools(t, ps[..|ps| - 1], s) + Cell(t, ps[|ps| - 1], s)
  }

  predicate Distinct(ps: seq<int>) {
    forall i, j :: 0 <= i < j < |ps| ==> ps[i] != ps[j]
  }

  lemma {:induction false} SumPoolsBump(t: Table, ps: seq<int>, k: int, st: string, s: string)
    requires Distinct(ps)
    ensures SumPools(BumpCell(t, k, st), ps, s)
            == SumPools(t, ps, s) + (if s == st && k in ps then 1 else 0)
  {
    if ps != [] {
      var init := ps[..|ps| - 1];
      SumPoolsBump(t, init, k, st, s);
      assert ps == init + [ps[|ps| - 1]];
      assert k in ps <==> k in init || k == ps[|ps| - 1];
      if k == ps[|ps| - 1] {
        assert k !in init;
      }
    }
  }

  lemma {:induction false} SumPoolsEmpty(ps: seq<int>, s: string)
    ensures SumPools(map[], ps, s) == 0
  {
    if ps != [] { SumPoolsEmpty(ps[..|ps| - 1], s); }
  }

  /** Summed over any duplicate-free list covering the pools, 'by_pool'
      gives back 'all'. */
  lemma {:induction false} PoolTotals(pgs: seq<PgRecord>, ps: seq<int>, s: string)
    requires Reduce(pgs).Success? && Distinct(ps)
    requires forall p :: p in Reduce(pgs).value.byPool ==> p in ps
    ensures SumPools(Reduce(pgs).value.byPool, ps, s) == Get(Reduce(pgs).value.all, s)
  {
    if pgs == [] {
      SumPoolsEmpty(ps, s);
    } else {
      var init := pgs[..|pgs| - 1];
      var last := pgs[|pgs| - 1];
      var pool := PoolOf(last).value;
      var sm := Reduce(init).value;
      assert Reduce(pgs).value == Tally(sm, last, pool);
      assert pool in Reduce(pgs).value.byPool;
      PoolTotals(init, ps, s);
      SumPoolsBump(sm.byPool, ps, pool, last.state, s);
    }
  }

  /** The per-state PG count is the sum over the pools of the per-pool count. */
  lemma PoolTotalsCount(pgs: seq<PgRecord>, ps: seq<int>, s: string)
    requires Reduce(pgs).Success? && Distinct(ps)
    requires forall p :: p in ps <==> p in Reduce(pgs).value.byPool
    ensures SumPools(Reduce(pgs).value.byPool, ps, s) == Count(pgs, StateKey(s))
  {
    PoolTotals(pgs, ps, s);
    ReduceAll(pgs);
  }

  // ---------------------------------------------------------------------
  // Independence of record order
  // ---------------------------------------------------------------------

  lemma {:induction false} CountAppend(a: seq<PgRecord>, b: seq<PgRecord>, key: Key)
    ensures Count(a + b, key) == Count(a, key) + Count(b, key)
  {
    if b != [] {
      assert (a + b)[..|a + b| - 1] == a + b[..|b| - 1];
      CountAppend(a, b[..|b| - 1], key);
    } else {
      assert a + b == a;
    }
  }

  /** Removing the record at `j` takes its weight off the count. */
  lemma CountRemove(b: seq<PgRecord>, j: nat, key: Key)
    requires j < |b|
    ensures Count(b, key) == Count(b[..j] + b[j + 1..], key) + Weight(b[j], key)
  {
    assert b == b[..j] + ([b[j]] + b[j + 1..]);
    CountAppend(b[..j], [b[j]] + b[j + 1..], key);
    CountAppend([b[j]], b[j + 1..], key);
    CountAppend(b[..j], b[j + 1..], key);
    assert [b[j]][..0] == [];
  }

  lemma {:induction false} CountPermutation(a: seq<PgRecord>, b: seq<PgRecord>, key: Key)
    requires multiset(a) == multiset(b)
    ensures Count(a, key) == Count(b, key)
    decreases |a|
  {
    if a == [] {
      assert |b| == |multiset(b)| == 0;
    } else {
      var j := MatchLast(a, b);
      CountPermutation(a[..|a| - 1], b[..j] + b[j + 1..], key);
      CountRemove(b, j, key);
    }
  }

  /** The last record of a permuted listing sits somewhere in the other,
      and the rest of each are permutations of each other. */
  lemma MatchLast<T>(a: seq<T>, b: seq<T>) returns (j: nat)
    requires a != [] && multiset(a) == multiset(b)
    ensures j < |b| && b[j] == a[|a| - 1]
    ensures multiset(a[..|a| - 1]) == multiset(b[..j] + b[j + 1..])
  {
    var x := a[|a| - 1];
    assert a == a[..|a| - 1] + [x];
    assert x in multiset(b);
    j :| 0 <= j < |b| && b[j] == x;
    RemovedMultiset(b, j);
  }

  lemma RemovedMultiset<T>(b: seq<T>, j: nat)
    requires j < |b|
    ensures multiset(b[..j] + b[j + 1..]) == multiset(b) - multiset{b[j]}
  {
    assert b == b[..j] + [b[j]] + b[j + 1..];
  }

  lemma {:induction false} ReduceFailsIff(pgs: seq<PgRecord>)
    ensures Reduce(pgs).Failure? <==> exists pg :: pg in pgs && PoolOf(pg).Failure?
  {
    if pgs != [] {
      var init := pgs[..|pgs| - 1];
      var last := pgs[|pgs| - 1];
      ReduceFailsIff(init);
      assert pgs == init + [last];
      assert forall pg :: pg in pgs <==> pg in init || pg == last;
    }
  }

  lemma CountsExtensional(c1: Counts, c2: Counts)
    requires forall s :: s in c1 <==> s in c2
    requires forall s :: Get(c1, s) == Get(c2, s)
    ensures c1 == c2
  {
    forall s | s in c1 ensures c1[s] == c2[s] {
      assert Get(c1, s) == Get(c2, s);
    }
  }

  lemma TablesExtensional(t1: Table, t2: Table)
    requires forall k :: k in t1 <==> k in t2
    requires forall k, s :: s in Row(t1, k) <==> s in Row(t2, k)
    requires forall k, s :: Cell(t1, k, s) == Cell(t2, k, s)
    ensures t1 == t2
  {
    forall k | k in t1 ensures t1[k] == t2[k] {
      assert Row(t1, k) == t1[k] && Row(t2, k) == t2[k];
      forall s ensures Get(t1[k], s) == Get(t2[k], s) {
        assert Cell(t1, k, s) == Cell(t2, k, s);
      }
      forall s ensures s in t1[k] <==> s in t2[k] {
        assert s in Row(t1, k) <==> s in Row(t2, k);
      }
      CountsExtensional(t1[k], t2[k]);
    }
    assert forall k :: k in t1.Keys <==> k in t2.Keys;
  }

  /** Reordering the listing changes nothing: the summary depends only on
      the multiset of records. */
  lemma ReduceOrderFree(a: seq<PgRecord>, b: seq<PgRecord>)
    requires multiset(a) == multiset(b)
    ensures Reduce(a).Success? <==> Reduce(b).Success?
    ensures Reduce(a).Success? ==> Reduce(a) == Reduce(b)
  {
    ReduceFailsIff(a);
    ReduceFailsIff(b);
    assert forall x :: x in a <==> x in multiset(a);
    assert forall x :: x in b <==> x in multiset(b);
    if Reduce(a).Success? {
      var sa, sb := Reduce(a).value, Reduce(b).value;
      ReduceAll(a); ReduceAll(b);
      ReduceByPool(a); ReduceByPool(b);
      ReduceByOsd(a); ReduceByOsd(b);
      forall key ensures Count(a, key) == Count(b, key) { CountPermutation(a, b, key); }
      CountsExtensional(sa.all, sb.all);
      TablesExtensional(sa.byPool, sb.byPool);
      TablesExtensional(sa.byOsd, sb.byOsd);
    }
  }

  /** The worked example: one PG of pool 3 acting on OSDs 1 and 2. */
  lemma SinglePgExample()
    ensures Reduce([PgRecord([1, 2], "3.a", "active+clean")])
            == Success(Summary(map[1 := map["active+clean" := 1], 2 := map["active+clean" := 1]],
                               map[3 := map["active+clean" := 1]],
                               map["active+clean" := 1]))
  {
    var pg := PgRecord([1, 2], "3.a", "active+clean");
    PoolOfPgid(3, "a", [1, 2], "active+clean");
    assert ShowNat(3) == "3";
    assert [pg][..0] == [];
    var st := "active+clean";
    assert pg.acting[..1] == [1];
    assert pg.acting[..1][..0] == [];
    assert AddActing(map[], [1], st) == BumpCell(map[], 1, st);
    assert AddActing(map[], [1, 2], st) == BumpCell(BumpCell(map[], 1, st), 2, st);
    assert Reduce([pg]) == Success(Tally(Empty, pg, 3));
  }
}
