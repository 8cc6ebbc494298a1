/**
 Offset pagination. A list handler asks the database for one row more than the page
 and prints the next offset only when that row came back.

 SQL fixes a row order only as far as ORDER BY does, so the answer to a query is any
 sorted arrangement of the table, and two requests may see two different ones.
 */
module Paging {
  import opened Wrappers
  import opened Decimal
  import opened PageToken

  const MAX_PAGE_SIZE: int := 1000

  datatype Page<+R> = Page(rows: seq<R>, next: string)

  function EffectiveSize(requested: int): (size: nat)
    ensures 1 <= size < MAX_PAGE_SIZE
  {
    if requested <= 0 then 50
    else if requested > MAX_PAGE_SIZE - 1 then MAX_PAGE_SIZE - 1
    else requested
  }

  function Min(a: nat, b: nat): nat { if a < b then a else b }

  /** LIMIT and OFFSET applied to an ordered result. */
  function Slice<R>(answer: seq<R>, limit: nat, offset: nat): seq<R> {
    answer[Min(offset, |answer|)..Min(offset + limit, |answer|)]
  }

  /** What the handlers make of the rows the database sent for a page of `size` at `offset`. */
  function PageOf<R>(result: seq<R>, size: nat, offset: nat): Page<R> {
    if |result| > size then Page(result[..size], Print(offset + size)) else Page(result, "")
  }

  method EmitPage<R>(result: seq<R>, size: nat, offset: nat) returns (resp: Page<R>)
    ensures resp == PageOf(result, size, offset)
  {
    var hasMore := |result| > size;
    var emit := if hasMore then size else |result|;
    var rows: seq<R> := [];
    for i := 0 to emit
      invariant rows == result[..i]
    {
      rows := rows + [result[i]];
    }
    resp := Page(rows, if hasMore then Print(offset + size) else "");
  }

  function ListAt<R>(answer: seq<R>, requested: int, offset: nat): Page<R> {
    PageOf(Slice(answer, EffectiveSize(requested) + 1, offset), EffectiveSize(requested), offset)
  }

  /** The row that is fetched and not shown decides exactly whether more rows exist. */
  lemma LookAhead<R>(answer: seq<R>, requested: int, offset: nat)
    ensures var size := EffectiveSize(requested);
            ListAt(answer, requested, offset) ==
            Page(Slice(answer, size, offset), if |answer| > offset + size then Print(offset + size) else "")
  {
  }

  /** A page of `size` rows at `offset`: those rows as far as there are any, and the next offset while rows remain. */
  predicate IsPageOf<R(==)>(answer: seq<R>, size: nat, offset: nat, page: Page<R>) {
    && |page.rows| == (if offset >= |answer| then 0 else if |answer| - offset < size then |answer| - offset else size)
    && (forall i :: 0 <= i < |page.rows| ==> page.rows[i] == answer[offset + i])
    && page.next == (if offset + size < |answer| then Print(offset + size) else "")
  }

  lemma SliceIsPage<R>(answer: seq<R>, size: nat, offset: nat)
    ensures IsPageOf(answer, size, offset,
                     Page(Slice(answer, size, offset), if |answer| > offset + size then Print(offset + size) else ""))
  {
  }

  /** A request for 1 to 999 rows gets as many, one for more gets 999, and one for none or fewer gets 50. */
  lemma PageSizes<R>(answer: seq<R>, requested: int, offset: nat)
    ensures 1 <= requested <= 999 ==> IsPageOf(answer, requested, offset, ListAt(answer, requested, offset))
    ensures requested > 999 ==> IsPageOf(answer, 999, offset, ListAt(answer, requested, offset))
    ensures requested <= 0 ==> IsPageOf(answer, 50, offset, ListAt(answer, requested, offset))
  {
    LookAhead(answer, requested, offset);
    SliceIsPage(answer, EffectiveSize(requested), offset);
    assert EffectiveSize(requested) == if requested <= 0 then 50 else if requested > 999 then 999 else requested;
  }

  /** A request for `size` rows at `offset` gets a next token from a table of `rows` rows. */
  predicate PrintsToken(rows: nat, offset: nat, size: nat) { rows > offset + size }

  /** The sum that is printed fits in an int for every request, exactly when the table has at most 2^31 rows. */
  lemma NextOffsetFits(rows: nat)
    ensures (forall offset: nat, size: nat ::
              offset <= INT_MAX && 1 <= size <= 999 && PrintsToken(rows, offset, size)
              ==> offset + size <= INT_MAX)
       <==> rows <= 2_147_483_648
  {
    if rows > INT_MAX + 1 {
      assert PrintsToken(rows, INT_MAX, 1);
    }
  }

  /** A printed token is read back as the offset where the next page starts, before the end of the table. */
  lemma NextToken<R>(answer: seq<R>, requested: int, offset: nat)
    requires |answer| <= INT_MAX
    ensures var next := ListAt(answer, requested, offset).next;
            && (next == "" <==> |answer| <= offset + EffectiveSize(requested))
            && (next != "" ==> next == Print(offset + EffectiveSize(requested))
                               && TokenOffset(next) == Success(offset + EffectiveSize(requested)))
  {
    LookAhead(answer, requested, offset);
    TokenRoundTrip(offset + EffectiveSize(requested));
  }

  // ---------------------------------------------------------------- the walk

  /** How request `k` reads `limit` rows at `offset`. */
  type Fetch<R> = (nat, nat, nat) -> seq<R>

  /** Request `k` reads the order `answers(k)`. */
  function Serving<R>(answers: nat -> seq<R>): Fetch<R> {
    (k: nat, limit: nat, offset: nat) => Slice(answers(k), limit, offset)
  }

  /** One list request: a bad token fails, otherwise one row more than the page is fetched. */
  function Respond<R>(fetch: Fetch<R>, k: nat, requested: int, token: string): Result<Page<R>> {
    match TokenOffset(token)
    case Failure(error) => Failure(error)
    case Success(offset) =>
      Success(PageOf(fetch(k, EffectiveSize(requested) + 1, offset), EffectiveSize(requested), offset))
  }

  /** A list method as its caller sees it: request number and token to response. */
  type Service<R> = (nat, string) -> Result<Page<R>>

  function Lister<R>(fetch: Fetch<R>, sizes: nat -> int): Service<R> {
    (k: nat, token: string) => Respond(fetch, k, sizes(k), token)
  }

  /** A client collecting rows: `seen` so far, at most `steps` requests more, the next one being number k. */
  function Collect<R>(respond: Service<R>, k: nat, token: string, steps: nat, seen: seq<R>): seq<R>
    decreases steps
  {
    if steps == 0 then seen
    else
      match respond(k, token)
      case Failure(_) => seen
      case Success(page) =>
        if page.next == "" then seen + page.rows else Collect(respond, k + 1, page.next, steps - 1, seen + page.rows)
  }

  /** The rows of at most `steps` requests that follow next_page_token from the empty token on. */
  function Follow<R>(respond: Service<R>, steps: nat): seq<R> { Collect(respond, 0, "", steps, []) }

  /** The page at `offset` that request k is sent. */
  function RowsAt<R>(answers: nat -> seq<R>, sizes: nat -> int, k: nat, offset: nat): seq<R> {
    Slice(answers(k), EffectiveSize(sizes(k)), offset)
  }

  /** The same walk over offsets, without printing and parsing tokens; request k sees the order `answers(k)`. */
  function WalkAt<R>(answers: nat -> seq<R>, sizes: nat -> int, n: nat, k: nat, offset: nat, seen: seq<R>): seq<R>
    decreases if offset < n then n - offset else 0
  {
    var next, now := offset + EffectiveSize(sizes(k)), seen + RowsAt(answers, sizes, k, offset);
    if n > next then WalkAt(answers, sizes, n, k + 1, next, now) else now
  }

  /** How a page token is read. */
  type Reader = string -> Result<nat>

  /** A response with these rows, from a table of n rows, whose token stands for `next` while rows remain. */
  ghost predicate RightPage<R>(read: Reader, response: Result<Page<R>>, rows: seq<R>, next: nat, n: nat) {
    && response.Success? && response.value.rows == rows
    && (response.value.next == "" <==> n <= next)
    && (response.value.next != "" ==> read(response.value.next) == Success(next))
  }

  /** An accepted token selects the page at the offset it stands for. */
  lemma RespondIs<R>(answers: nat -> seq<R>, k: nat, requested: int, token: string)
    requires TokenOffset(token).Success?
    ensures Respond(Serving(answers), k, requested, token)
         == Success(ListAt(answers(k), requested, TokenOffset(token).value))
  {
  }

  lemma PageIsRight<R>(answer: seq<R>, requested: int, offset: nat)
    requires |answer| <= INT_MAX
    ensures RightPage(TokenOffset, Success(ListAt(answer, requested, offset)),
                      Slice(answer, EffectiveSize(requested), offset), offset + EffectiveSize(requested), |answer|)
  {
    LookAhead(answer, requested, offset);
    NextToken(answer, requested, offset);
  }

  lemma RespondsRightly<R>(answers: nat -> seq<R>, sizes: nat -> int, k: nat, token: string)
    requires TokenOffset(token).Success? && |answers(k)| <= INT_MAX
    ensures RightPage(TokenOffset, Respond(Serving(answers), k, sizes(k), token),
                      RowsAt(answers, sizes, k, TokenOffset(token).value),
                      TokenOffset(token).value + EffectiveSize(sizes(k)), |answers(k)|)
  {
    RespondIs(answers, k, sizes(k), token);
    PageIsRight(answers(k), sizes(k), TokenOffset(token).value);
  }

  /** A walk over tokens that are read back right is the walk over offsets, and enough steps end it. */
  lemma {:induction false} TokensCarryOffsets<R>(read: Reader, respond: Service<R>, answers: nat -> seq<R>,
                                                 sizes: nat -> int,
                                                 n: nat, k: nat, token: string, offset: nat, steps: nat, seen: seq<R>)
    requires forall i: nat, t: string {:trigger respond(i, t)} :: read(t).Success? ==>
               RightPage(read, respond(i, t), RowsAt(answers, sizes, i, read(t).value),
                         read(t).value + EffectiveSize(sizes(i)), n)
    requires read(token) == Success(offset) && steps > 0 && steps + offset > n
    ensures Collect(respond, k, token, steps, seen) == WalkAt(answers, sizes, n, k, offset, seen)
    decreases steps
  {
    var next := offset + EffectiveSize(sizes(k));
    assert RightPage(read, respond(k, token), RowsAt(answers, sizes, k, offset), next, n);
    var page := respond(k, token).value;
    if n > next {
      TokensCarryOffsets(read, respond, answers, sizes, n, k + 1, page.next, next, steps - 1,
                         seen + page.rows);
    }
  }

  /** The walk of the service over the orders that its requests see. */
  lemma FollowIsWalk<R>(answers: nat -> seq<R>, sizes: nat -> int, n: nat, steps: nat)
    requires n <= INT_MAX && steps > n && forall i :: |answers(i)| == n
    ensures Follow(Lister(Serving(answers), sizes), steps) == WalkAt(answers, sizes, n, 0, 0, [])
  {
    var respond := Lister(Serving(answers), sizes);
    forall i: nat, t: string | TokenOffset(t).Success?
      ensures RightPage(TokenOffset, respond(i, t), RowsAt(answers, sizes, i, TokenOffset(t).value),
                        TokenOffset(t).value + EffectiveSize(sizes(i)), n)
    {
      RespondsRightly(answers, sizes, i, t);
    }
    TokensCarryOffsets(TokenOffset, respond, answers, sizes, n, 0, "", 0, steps, []);
  }

  /** From offset o on, a walk over one fixed order emits exactly the rows from o on. */
  lemma {:induction false} WalkFrom<R>(answers: nat -> seq<R>, sizes: nat -> int, a: seq<R>, k: nat, offset: nat,
                                       seen: seq<R>)
    requires (forall i :: answers(i) == a) && seen == a[..Min(offset, |a|)]
    ensures WalkAt(answers, sizes, |a|, k, offset, seen) == a
    decreases if offset < |a| then |a| - offset else 0
  {
    var size := EffectiveSize(sizes(k));
    var now := seen + Slice(a, size, offset);
    assert now == a[..Min(offset + size, |a|)];
    if |a| > offset + size {
      WalkFrom(answers, sizes, a, k + 1, offset + size, now);
    } else {
      assert now == a;
    }
  }

  /** Two services that respond alike are walked alike. */
  lemma {:induction false} CollectSame<R>(respond: Service<R>, respond': Service<R>, k: nat, token: string,
                                          steps: nat, seen: seq<R>)
    requires forall i: nat, t: string :: respond(i, t) == respond'(i, t)
    ensures Collect(respond, k, token, steps, seen) == Collect(respond', k, token, steps, seen)
    decreases steps
  {
    if steps > 0 {
      var page := respond(k, token);
      assert page == respond'(k, token);
      if page.Success? { CollectSame(respond, respond', k + 1, page.value.next, steps - 1, seen + page.value.rows); }
    }
  }

  // ---------------------------------------------------------------- sorted answers

  predicate Sorted<R>(s: seq<R>, le: (R, R) -> bool) {
    forall i, j :: 0 <= i < j < |s| ==> le(s[i], s[j])
  }

  predicate IsAnswer<R(==)>(table: seq<R>, le: (R, R) -> bool, answer: seq<R>) {
    multiset(answer) == multiset(table) && Sorted(answer, le)
  }

  predicate NoDuplicates<R(==)>(s: seq<R>) { forall i, j :: 0 <= i < j < |s| ==> s[i] != s[j] }

  lemma SameMembers<R>(a: seq<R>, b: seq<R>)
    requires multiset(a) == multiset(b)
    ensures |a| == |b| && forall x :: x in a <==> x in b
  {
    assert |multiset(a)| == |multiset(b)|;
    assert forall x :: x in a <==> x in multiset(a);
    assert forall x :: x in b <==> x in multiset(b);
  }

  /** Only one arrangement is sorted when the order tells all rows of the table apart. */
  lemma {:induction false} SortedIsUnique<R>(a: seq<R>, b: seq<R>, le: (R, R) -> bool)
    requires multiset(a) == multiset(b) && Sorted(a, le) && Sorted(b, le)
    requires forall x, y :: x in a && y in a && le(x, y) && le(y, x) ==> x == y
    ensures a == b
    decreases |a|
  {
    SameMembers(a, b);
    if a != [] {
      assert a[0] in b && b[0] in a;
      var i :| 0 <= i < |b| && b[i] == a[0];
      var j :| 0 <= j < |a| && a[j] == b[0];
      assert i == 0 || le(b[0], b[i]);
      assert j == 0 || le(a[0], a[j]);
      TailMultisets(a, b);
      assert Sorted(a[1..], le) && Sorted(b[1..], le);
      SortedIsUnique(a[1..], b[1..], le);
    }
  }

  lemma TailMultisets<R>(a: seq<R>, b: seq<R>)
    requires a != [] && b != [] && multiset(a) == multiset(b) && a[0] == b[0]
    ensures multiset(a[1..]) == multiset(b[1..])
  {
    assert a == [a[0]] + a[1..] && b == [b[0]] + b[1..];
    assert multiset(a[1..]) == multiset(a) - multiset{a[0]};
    assert multiset(b[1..]) == multiset(b) - multiset{b[0]};
  }

  lemma OneAnswer<R>(table: seq<R>, le: (R, R) -> bool, a: seq<R>, b: seq<R>)
    requires IsAnswer(table, le, a) && IsAnswer(table, le, b)
    requires forall x, y :: x in table && y in table && le(x, y) && le(y, x) ==> x == y
    ensures a == b
  {
    SameMembers(table, a);
    SortedIsUnique(a, b, le);
  }

  /** A database's answer to a query with LIMIT and OFFSET: a slice of some arrangement that ORDER BY allows. */
  ghost predicate IsSlice<R(!new)>(table: seq<R>, le: (R, R) -> bool, limit: nat, offset: nat, rows: seq<R>) {
    exists answer :: IsAnswer(table, le, answer) && rows == Slice(answer, limit, offset)
  }

  /** Every fetch is such an answer; two fetches may see two different arrangements. */
  ghost predicate Reads<R(!new)>(fetch: Fetch<R>, table: seq<R>, le: (R, R) -> bool) {
    forall k: nat, limit: nat, offset: nat :: IsSlice(table, le, limit, offset, fetch(k, limit, offset))
  }

  lemma StrictReads<R(!new)>(fetch: Fetch<R>, table: seq<R>, le: (R, R) -> bool, a: seq<R>)
    requires Reads(fetch, table, le) && IsAnswer(table, le, a)
    requires forall x, y :: x in table && y in table && le(x, y) && le(y, x) ==> x == y
    ensures forall k: nat, limit: nat, offset: nat :: fetch(k, limit, offset) == Serving(Always(a))(k, limit, offset)
  {
    forall k: nat, limit: nat, offset: nat
      ensures fetch(k, limit, offset) == Serving(Always(a))(k, limit, offset)
    {
      assert IsSlice(table, le, limit, offset, fetch(k, limit, offset));
      var b :| IsAnswer(table, le, b) && fetch(k, limit, offset) == Slice(b, limit, offset);
      OneAnswer(table, le, a, b);
    }
  }

  lemma ListerSame<R>(fetch: Fetch<R>, fetch': Fetch<R>, sizes: nat -> int, steps: nat)
    requires forall k: nat, limit: nat, offset: nat :: fetch(k, limit, offset) == fetch'(k, limit, offset)
    ensures Follow(Lister(fetch, sizes), steps) == Follow(Lister(fetch', sizes), steps)
  {
    forall i: nat, t: string
      ensures Lister(fetch, sizes)(i, t) == Lister(fetch', sizes)(i, t)
    {
      var offset := if TokenOffset(t).Success? then TokenOffset(t).value else 0;
      assert fetch(i, EffectiveSize(sizes(i)) + 1, offset) == fetch'(i, EffectiveSize(sizes(i)) + 1, offset);
    }
    CollectSame(Lister(fetch, sizes), Lister(fetch', sizes), 0, "", steps, []);
  }

  /** When the order is strict on the table, every walk shows the one sorted table, each row once, and ends. */
  lemma StrictOrderWalk<R(!new)>(fetch: Fetch<R>, table: seq<R>, le: (R, R) -> bool, sizes: nat -> int, a: seq<R>,
                                 steps: nat)
    requires |table| <= INT_MAX && Reads(fetch, table, le) && IsAnswer(table, le, a) && steps > |table|
    requires forall x, y :: x in table && y in table && le(x, y) && le(y, x) ==> x == y
    ensures Follow(Lister(fetch, sizes), steps) == a
  {
    StrictReads(fetch, table, le, a);
    SameMembers(a, table);
    ListerSame(fetch, Serving(Always(a)), sizes, steps);
    FollowIsWalk(Always(a), sizes, |table|, steps);
    WalkFrom(Always(a), sizes, a, 0, 0, []);
  }

  function Always<R>(a: seq<R>): nat -> seq<R> { (i: nat) => a }

  // ---------------------------------------------------------------- orders with ties

  /** Any two values compare, and comparing is transitive; two values may tie. */
  ghost predicate IsOrder<R(!new)>(le: (R, R) -> bool) {
    && (forall x, y :: le(x, y) || le(y, x))
    && (forall x, y, z :: le(x, y) && le(y, z) ==> le(x, z))
  }

  /** No two rows tie. */
  predicate NoTies<R>(table: seq<R>, le: (R, R) -> bool) {
    forall i, j :: 0 <= i < j < |table| ==> !(le(table[i], table[j]) && le(table[j], table[i]))
  }

  /** The walk ends and shows every row of the table once. */
  ghost predicate Complete<R(!new)>(table: seq<R>, respond: Service<R>) {
    forall steps: nat :: steps > |table| ==> multiset(Follow(respond, steps)) == multiset(table)
  }

  ghost predicate EveryWalkComplete<R(!new)>(table: seq<R>, le: (R, R) -> bool) {
    forall fetch: Fetch<R>, sizes: nat -> int :: Reads(fetch, table, le) ==> Complete(table, Lister(fetch, sizes))
  }

  /** Put x before the first row that does not come before it. */
  function Insert<R>(x: R, s: seq<R>, le: (R, R) -> bool): seq<R> {
    if s == [] || !le(s[0], x) then [x] + s else [s[0]] + Insert(x, s[1..], le)
  }

  lemma {:induction false} InsertAdds<R>(x: R, s: seq<R>, le: (R, R) -> bool)
    ensures multiset(Insert(x, s, le)) == multiset(s) + multiset{x}
  {
    if s == [] || !le(s[0], x) {
    } else {
      InsertAdds(x, s[1..], le);
      assert s == [s[0]] + s[1..];
    }
  }

  /** A row that comes before the first of a sorted rest comes before all of it. */
  lemma FirstIsLeast<R(!new)>(x: R, s: seq<R>, le: (R, R) -> bool)
    requires IsOrder(le) && Sorted(s, le) && s != [] && le(x, s[0])
    ensures Sorted([x] + s, le)
  {
    forall j | 0 <= j < |s|
      ensures le(x, s[j])
    {
      assert j == 0 || le(s[0], s[j]);
    }
  }

  lemma {:induction false} InsertKeepsOrder<R(!new)>(x: R, s: seq<R>, le: (R, R) -> bool)
    requires IsOrder(le) && Sorted(s, le)
    ensures Sorted(Insert(x, s, le), le)
  {
    if s == [] {
    } else if !le(s[0], x) {
      FirstIsLeast(x, s, le);
    } else {
      var rest := Insert(x, s[1..], le);
      InsertKeepsOrder(x, s[1..], le);
      InsertAdds(x, s[1..], le);
      forall j | 0 <= j < |rest|
        ensures le(s[0], rest[j])
      {
        assert rest[j] in multiset(rest);
        assert rest[j] == x || rest[j] in s[1..];
      }
    }
  }

  /** An arrangement always exists. */
  lemma {:induction false} SomeAnswer<R(!new)>(table: seq<R>, le: (R, R) -> bool) returns (a: seq<R>)
    requires IsOrder(le)
    ensures IsAnswer(table, le, a)
    decreases |table|
  {
    if table == [] { return []; }
    var rest := SomeAnswer(table[1..], le);
    a := Insert(table[0], rest, le);
    InsertKeepsOrder(table[0], rest, le);
    InsertAdds(table[0], rest, le);
    assert table == [table[0]] + table[1..];
  }

  /** Two rows that tie somewhere make two neighbours that tie. */
  lemma AdjacentTie<R(!new)>(a: seq<R>, le: (R, R) -> bool, p: nat, q: nat)
    requires IsOrder(le) && p < q < |a| && Sorted(a, le) && le(a[q], a[p])
    ensures le(a[p + 1], a[p])
  {
    assert p + 1 == q || le(a[p + 1], a[q]);
  }

  /** Requests 0..p see the order a, later ones the order b. */
  function Switching<R>(a: seq<R>, b: seq<R>, p: nat): nat -> seq<R> { (i: nat) => if i <= p then a else b }

  function OneRow(): nat -> int { (i: nat) => 1 }

  /** The first k rows of that walk: rows up to p of a, then rows from p + 1 of b. */
  function Shown<R>(a: seq<R>, b: seq<R>, p: nat, k: nat): seq<R>
    requires k <= |a| == |b| && p + 1 < |a|
  {
    if k <= p + 1 then a[..k] else a[..p + 1] + b[p + 1..k]
  }

  lemma ShownStep<R>(a: seq<R>, b: seq<R>, p: nat, k: nat)
    requires k < |a| == |b| && p + 1 < |a|
    ensures Shown(a, b, p, k) + Slice(Switching(a, b, p)(k), 1, k) == Shown(a, b, p, k + 1)
  {
  }

  /** One row per page. */
  lemma {:induction false} SwitchingWalk<R>(a: seq<R>, b: seq<R>, p: nat, k: nat)
    requires k < |a| == |b| && p + 1 < |a|
    ensures WalkAt(Switching(a, b, p), OneRow(), |a|, k, k, Shown(a, b, p, k)) == Shown(a, b, p, |a|)
    decreases |a| - k
  {
    ShownStep(a, b, p, k);
    if k + 1 < |a| { SwitchingWalk(a, b, p, k + 1); }
  }

  /** Swapping two neighbours that tie gives another legal answer. */
  lemma SwapTie<R>(a: seq<R>, le: (R, R) -> bool, p: nat) returns (b: seq<R>)
    requires Sorted(a, le) && p + 1 < |a| && le(a[p + 1], a[p])
    ensures b == a[p := a[p + 1]][p + 1 := a[p]]
    ensures multiset(b) == multiset(a) && Sorted(b, le)
  {
    b := a[p := a[p + 1]][p + 1 := a[p]];
  }

  /** A legal walk that shows one row twice and another never. */
  ghost predicate Garbles<R(!new)>(table: seq<R>, le: (R, R) -> bool, fetch: Fetch<R>, sizes: nat -> int, twice: R,
                                   never: R) {
    && Reads(fetch, table, le) && never in table
    && forall steps: nat :: steps > |table| ==>
         multiset(Follow(Lister(fetch, sizes), steps))[twice] >= 2 && never !in Follow(Lister(fetch, sizes), steps)
  }

  lemma ServingReads<R(!new)>(table: seq<R>, le: (R, R) -> bool, answers: nat -> seq<R>)
    requires forall i :: IsAnswer(table, le, answers(i))
    ensures Reads(Serving(answers), table, le)
  {
    forall k: nat, limit: nat, offset: nat
      ensures IsSlice(table, le, limit, offset, Serving(answers)(k, limit, offset))
    {
      assert IsAnswer(table, le, answers(k));
    }
  }

  /** A database that reads the table exists. */
  lemma SomeReads<R(!new)>(table: seq<R>, le: (R, R) -> bool)
    requires IsOrder(le)
    ensures exists fetch: Fetch<R> :: Reads(fetch, table, le)
  {
    var a := SomeAnswer(table, le);
    ServingReads(table, le, Always(a));
  }

  /** Serving an order, and from the second of two tied rows on the order with the two swapped. */
  lemma SwitchingGarbles<R(!new)>(table: seq<R>, le: (R, R) -> bool, a: seq<R>, b: seq<R>, p: nat)
    requires |table| <= INT_MAX && NoDuplicates(a) && p + 1 < |a| && b == a[p := a[p + 1]][p + 1 := a[p]]
    requires IsAnswer(table, le, a) && IsAnswer(table, le, b)
    ensures Garbles(table, le, Serving(Switching(a, b, p)), OneRow(), a[p], a[p + 1])
  {
    var fetch := Serving(Switching(a, b, p));
    ServingReads(table, le, Switching(a, b, p));
    SameMembers(a, table);
    SwitchedLosesRow(a, b, p);
    assert a[p + 1] in multiset(a);
    forall steps: nat | steps > |table|
      ensures Follow(Lister(fetch, OneRow()), steps) == a[..p + 1] + b[p + 1..]
    {
      SwitchingFollow(a, b, p, steps);
    }
  }

  lemma SwitchingFollow<R>(a: seq<R>, b: seq<R>, p: nat, steps: nat)
    requires |a| == |b| <= INT_MAX && p + 1 < |a| && steps > |a|
    ensures Follow(Lister(Serving(Switching(a, b, p)), OneRow()), steps) == a[..p + 1] + b[p + 1..]
  {
    SwitchingWalk(a, b, p, 0);
    FollowIsWalk(Switching(a, b, p), OneRow(), |a|, steps);
    assert b[p + 1..|a|] == b[p + 1..];
  }

  /** With a tie in the order, some walk shows a row twice and another row never. */
  lemma TieLosesARow<R(!new)>(table: seq<R>, le: (R, R) -> bool)
    requires |table| <= INT_MAX && NoDuplicates(table) && IsOrder(le) && !NoTies(table, le)
    ensures exists fetch: Fetch<R>, sizes: nat -> int, twice: R, never: R ::
              Garbles(table, le, fetch, sizes, twice, never)
  {
    var a := SomeAnswer(table, le);
    SameMembers(a, table);
    var p, q := TieInAnswer(table, a, le);
    AdjacentTie(a, le, p, q);
    var b := SwapTie(a, le, p);
    MultisetNoDuplicates(table, a);
    SwitchingGarbles(table, le, a, b, p);
  }

  lemma SwitchedLosesRow<R>(a: seq<R>, b: seq<R>, p: nat)
    requires NoDuplicates(a) && p + 1 < |a| && b == a[p := a[p + 1]][p + 1 := a[p]]
    ensures a[p + 1] !in a[..p + 1] + b[p + 1..] && multiset(a[..p + 1] + b[p + 1..])[a[p]] >= 2
  {
    var x, y := a[..p + 1], b[p + 1..];
    assert x[p] == a[p] && y[0] == a[p];
    assert multiset(x + y) == multiset(x) + multiset(y);
  }

  lemma MultisetNoDuplicates<R>(table: seq<R>, a: seq<R>)
    requires NoDuplicates(table) && multiset(a) == multiset(table)
    ensures NoDuplicates(a)
  {
    forall i, j | 0 <= i < j < |a|
      ensures a[i] != a[j]
    {
      if a[i] == a[j] {
        assert a == a[..i] + [a[i]] + a[i + 1..j] + [a[j]] + a[j + 1..];
        assert multiset(a)[a[i]] >= 2;
        AtMostOnce(table, a[i]);
      }
    }
  }

  lemma {:induction false} AtMostOnce<R>(s: seq<R>, x: R)
    requires NoDuplicates(s)
    ensures multiset(s)[x] <= 1
    decreases |s|
  {
    if s != [] {
      assert s == [s[0]] + s[1..];
      AtMostOnce(s[1..], x);
      if s[0] == x { assert x !in s[1..]; }
    }
  }

  lemma TieInAnswer<R>(table: seq<R>, a: seq<R>, le: (R, R) -> bool) returns (p: nat, q: nat)
    requires NoDuplicates(table) && !NoTies(table, le) && multiset(a) == multiset(table)
    ensures p < q < |a| && le(a[p], a[q]) && le(a[q], a[p])
  {
    SameMembers(a, table);
    var i, j :| 0 <= i < j < |table| && le(table[i], table[j]) && le(table[j], table[i]);
    assert table[i] in a && table[j] in a;
    p :| 0 <= p < |a| && a[p] == table[i];
    q :| 0 <= q < |a| && a[q] == table[j];
    if q < p { p, q := q, p; }
  }

  lemma GarbledIsIncomplete<R(!new)>(table: seq<R>, le: (R, R) -> bool, fetch: Fetch<R>, sizes: nat -> int, twice: R,
                                     never: R)
    requires Garbles(table, le, fetch, sizes, twice, never)
    ensures !Complete(table, Lister(fetch, sizes))
  {
    assert never in multiset(table);
    assert never !in multiset(Follow(Lister(fetch, sizes), |table| + 1));
  }

  lemma TiesAreEqual<R>(table: seq<R>, le: (R, R) -> bool, x: R, y: R)
    requires NoTies(table, le) && x in table && y in table && le(x, y) && le(y, x)
    ensures x == y
  {
    var i :| 0 <= i < |table| && table[i] == x;
    var j :| 0 <= j < |table| && table[j] == y;
  }

  /** Without ties a walk shows the table in its one order, each row once. */
  lemma NoTiesInOrder<R(!new)>(table: seq<R>, le: (R, R) -> bool, fetch: Fetch<R>, sizes: nat -> int, steps: nat)
    requires |table| <= INT_MAX && IsOrder(le) && NoTies(table, le) && Reads(fetch, table, le) && steps > |table|
    ensures IsAnswer(table, le, Follow(Lister(fetch, sizes), steps))
  {
    var a := SomeAnswer(table, le);
    forall x, y | x in table && y in table && le(x, y) && le(y, x)
      ensures x == y
    {
      TiesAreEqual(table, le, x, y);
    }
    StrictOrderWalk(fetch, table, le, sizes, a, steps);
  }

  lemma NoTiesComplete<R(!new)>(table: seq<R>, le: (R, R) -> bool, fetch: Fetch<R>, sizes: nat -> int)
    requires |table| <= INT_MAX && IsOrder(le) && NoTies(table, le) && Reads(fetch, table, le)
    ensures Complete(table, Lister(fetch, sizes))
  {
    forall steps: nat | steps > |table|
      ensures multiset(Follow(Lister(fetch, sizes), steps)) == multiset(table)
    {
      NoTiesInOrder(table, le, fetch, sizes, steps);
    }
  }

  /** The exact condition for any ORDER BY: every walk is complete if and only if no two rows of the table tie. */
  lemma WalkExactly<R(!new)>(table: seq<R>, le: (R, R) -> bool)
    requires |table| <= INT_MAX && NoDuplicates(table) && IsOrder(le)
    ensures EveryWalkComplete(table, le) <==> NoTies(table, le)
  {
    if NoTies(table, le) {
      forall fetch: Fetch<R>, sizes: nat -> int | Reads(fetch, table, le)
        ensures Complete(table, Lister(fetch, sizes))
      {
        NoTiesComplete(table, le, fetch, sizes);
      }
    } else {
      TieLosesARow(table, le);
      var fetch, sizes, twice, never :| Garbles(table, le, fetch, sizes, twice, never);
      GarbledIsIncomplete(table, le, fetch, sizes, twice, never);
    }
  }

  // ---------------------------------------------------------------- lists ordered by start time alone

  /** Later starts first, for rows of any kind. */
  function StartDesc<R>(start: R -> int): (R, R) -> bool { (a, b) => start(a) >= start(b) }

  predicate DistinctStarts<R>(table: seq<R>, start: R -> int) {
    forall i, j :: 0 <= i < j < |table| ==> start(table[i]) != start(table[j])
  }

  /** The exact condition for the charging and consumption lists: pairwise distinct start times. */
  lemma StartTimeWalkExactly<R(!new)>(table: seq<R>, start: R -> int)
    requires |table| <= INT_MAX && NoDuplicates(table)
    ensures EveryWalkComplete(table, StartDesc(start)) <==> DistinctStarts(table, start)
  {
    WalkExactly(table, StartDesc(start));
  }
}
