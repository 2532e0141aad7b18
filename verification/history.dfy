/**
 The per-user conversation-history store of botwithdb.py: the `chat_history`
 table, seen as a map from user id to its row of five nullable text columns
 `conversation1` .. `conversation5`.
 */
module History {
  import opened Wrappers

  /** One nullable `conversationK` column. */
  type Slot = Option<string>

  /** A row of the table without its key, as `result[1:]` returns it. */
  type Row = seq<Slot>

  /** The table: user id (the primary key) to row. */
  type Store = map<int, Row>

  /** The table declares exactly five conversation columns. */
  const Width: nat := 5

  /** Every row the table can hold has all five columns. */
  predicate WellFormed(store: Store) {
    forall uid :: uid in store ==> |store[uid]| == Width
  }

  /** `n` NULL columns. */
  function Nulls(n: nat): (r: Row)
    ensures |r| == n
    ensures forall i :: 0 <= i < n ==> r[i] == None
  {
    seq(n, _ => None)
  }

  /** The texts `xs`, each in a non-NULL column, in order. */
  function Filled(xs: seq<string>): (r: Row)
    ensures |r| == |xs|
    ensures forall i :: 0 <= i < |xs| ==> r[i] == Some(xs[i])
  {
    seq(|xs|, i requires 0 <= i < |xs| => Some(xs[i]))
  }

  /** The stored form of one exchange: `f"User: {u} | Bot: {b}"`. */
  function Exchange(u: string, b: string): string
  {
    "User: " + u + " | Bot: " + b
  }

  /** Where the two utterances sit inside the stored form. */
  lemma ExchangeLayout(u: string, b: string)
    ensures var e := Exchange(u, b);
            && |e| == |u| + |b| + 14
            && e[..6] == "User: " && e[6..6 + |u|] == u
            && e[6 + |u|..14 + |u|] == " | Bot: " && e[14 + |u|..] == b
  {
  }

  /**
   The stored form is not lossless: a user text that itself holds " | Bot: "
   makes two different exchanges store the same text.
   */
  lemma ExchangeAmbiguous()
    ensures Exchange("a | Bot: b", "c") == Exchange("a", "b | Bot: c")
    ensures ("a | Bot: b", "c") != ("a", "b | Bot: c")
  {
  }

  /**
   `get_chat_history`: the row's five columns, NULLs included, or the empty
   sequence when the user has no row.
   */
  function Get(store: Store, uid: int): (r: seq<Slot>)
    ensures uid !in store ==> r == []
    ensures uid in store ==> r == store[uid]
    ensures WellFormed(store) ==> (|r| == Width <==> uid in store) && (|r| == 0 <==> uid !in store)
  {
    if uid in store then store[uid] else []
  }

  /**
   The row `update_chat_history` writes, given the user's current row (if
   any) and the new exchange. With no row, a row is inserted holding the
   exchange in `conversation1` and NULL elsewhere. With a row, its columns
   are read as a list; since a row read from the table has five entries the
   first one is popped, then the exchange is appended.
   */
  function NextRow(existing: Option<Row>, e: string): Row
  {
    match existing
    case Some(conversations) =>
      var kept := if |conversations| >= Width then conversations[1..] else conversations;
      kept + [Some(e)]
    case None =>
      [Some(e)] + Nulls(Width - 1)
  }

  /**
   `update_chat_history`: a new user gets the row [exchange, NULL, NULL,
   NULL, NULL]; an existing five-column row loses column 1, the rest move
   left and the exchange lands in column 5. No other row changes.
   */
  function Update(store: Store, uid: int, u: string, b: string): (r: Store)
    ensures r.Keys == store.Keys + {uid}
    ensures forall other :: other in store && other != uid ==> r[other] == store[other]
    ensures uid !in store ==> r[uid] == [Some(Exchange(u, b))] + Nulls(Width - 1)
    ensures uid in store && |store[uid]| == Width ==>
              && |r[uid]| == Width
              && r[uid][..Width - 1] == store[uid][1..]
              && r[uid][Width - 1] == Some(Exchange(u, b))
    ensures WellFormed(store) ==> WellFormed(r)
  {
    var existing := if uid in store then Some(store[uid]) else None;
    store[uid := NextRow(existing, Exchange(u, b))]
  }

  /**
   Reading after an update: the user reads five columns holding the new
   exchange (first for a new user, last otherwise), and every other user
   reads what they read before.
   */
  lemma GetAfterUpdate(store: Store, uid: int, u: string, b: string, other: int)
    requires WellFormed(store)
    ensures var r := Get(Update(store, uid, u, b), uid);
            && |r| == Width
            && (uid !in store ==> r[0] == Some(Exchange(u, b)))
            && (uid in store ==> r[Width - 1] == Some(Exchange(u, b)))
    ensures other != uid ==> Get(Update(store, uid, u, b), other) == Get(store, other)
  {
  }

  /** One `update_chat_history` call's arguments. */
  datatype Turn = Turn(user: string, bot: string)

  /** The stored forms of a run of turns. */
  function Exchanges(ts: seq<Turn>): (es: seq<string>)
    ensures |es| == |ts|
    ensures forall i :: 0 <= i < |ts| ==> es[i] == Exchange(ts[i].user, ts[i].bot)
  {
    seq(|ts|, i requires 0 <= i < |ts| => Exchange(ts[i].user, ts[i].bot))
  }

  lemma ExchangesSnoc(ts: seq<Turn>)
    requires |ts| >= 1
    ensures var last := ts[|ts| - 1];
            Exchanges(ts) == Exchanges(ts[..|ts| - 1]) + [Exchange(last.user, last.bot)]
  {
  }

  /** The store after `update_chat_history` is called for `uid` with each turn in order. */
  function Replay(store: Store, uid: int, ts: seq<Turn>): Store
  {
    if |ts| == 0 then store
    else
      var last := ts[|ts| - 1];
      Update(Replay(store, uid, ts[..|ts| - 1]), uid, last.user, last.bot)
  }

  /** Updates for one user leave every other user's row alone. */
  lemma {:induction false} ReplayOthersUnchanged(store: Store, uid: int, ts: seq<Turn>, other: int)
    requires other != uid
    ensures other in Replay(store, uid, ts) <==> other in store
    ensures other in store ==> Replay(store, uid, ts)[other] == store[other]
  {
    if |ts| > 0 {
      ReplayOthersUnchanged(store, uid, ts[..|ts| - 1], other);
    }
  }

  /** The row of a user with no row before, after one update per turn. */
  function RowAfter(ts: seq<Turn>): Row
    requires |ts| >= 1
  {
    var last := ts[|ts| - 1];
    var e := Exchange(last.user, last.bot);
    if |ts| == 1 then NextRow(None, e)
    else NextRow(Some(RowAfter(ts[..|ts| - 1])), e)
  }

  /** Replaying turns for a user with no row builds the row `RowAfter` describes. */
  lemma {:induction false} ReplayRow(store: Store, uid: int, ts: seq<Turn>)
    requires uid !in store
    requires |ts| >= 1
    ensures uid in Replay(store, uid, ts)
    ensures Replay(store, uid, ts)[uid] == RowAfter(ts)
  {
    var ts' := ts[..|ts| - 1];
    var last := ts[|ts| - 1];
    if |ts| == 1 {
      assert ts' == [];
    } else {
      ReplayRow(store, uid, ts');
    }
  }

  /** The last `n` elements of `xs` (all of them when there are fewer). */
  function LastN(xs: seq<string>, n: nat): (r: seq<string>)
    ensures |r| == if |xs| <= n then |xs| else n
    ensures xs == xs[..|xs| - |r|] + r
  {
    if |xs| <= n then xs else xs[|xs| - n..]
  }

  /** Sliding one element onto a window of the last `n`. */
  lemma LastNSnoc(xs: seq<string>, x: string, n: nat)
    requires n >= 1
    ensures |xs| < n ==> LastN(xs + [x], n) == xs + [x]
    ensures |xs| >= n ==> LastN(xs, n) == xs[|xs| - n..] && LastN(xs + [x], n) == LastN(xs, n)[1..] + [x]
  {
    if |xs| >= n {
      assert (xs + [x])[|xs| + 1 - n..] == xs[|xs| - n..][1..] + [x];
    }
  }

  /** Shifting a row with NULL padding left and filling the last column uses up one NULL. */
  lemma ShiftPartial(w: seq<string>, e: string)
    requires |w| < Width
    ensures (Nulls(Width - |w|) + Filled(w))[1..] + [Some(e)] == Nulls(Width - |w| - 1) + Filled(w + [e])
  {
  }

  /** Shifting a full row left and filling the last column drops its oldest text. */
  lemma ShiftFull(w: seq<string>, e: string)
    requires |w| == Width
    ensures (Nulls(0) + Filled(w))[1..] + [Some(e)] == Nulls(0) + Filled(w[1..] + [e])
  {
  }

  /** One more exchange on a padded window row gives the padded window of one more. */
  lemma GrowPadded(xs: seq<string>, e: string)
    ensures var w := LastN(xs, Width);
            var w2 := LastN(xs + [e], Width);
            (Nulls(Width - |w|) + Filled(w))[1..] + [Some(e)] == Nulls(Width - |w2|) + Filled(w2)
  {
    LastNSnoc(xs, e, Width);
    if |xs| < Width {
      ShiftPartial(xs, e);
    } else {
      ShiftFull(LastN(xs, Width), e);
    }
  }

  lemma SliceSnoc(xs: seq<string>, x: string)
    requires |xs| >= 1
    ensures (xs + [x])[1..] == xs[1..] + [x]
  {
  }

  /** The shape of `RowAfter` for two or more turns, by induction on the turns. */
  lemma {:induction false} RowAfterShape(ts: seq<Turn>)
    requires |ts| >= 2
    ensures var w := LastN(Exchanges(ts)[1..], Width);
            RowAfter(ts) == Nulls(Width - |w|) + Filled(w)
  {
    var ts' := ts[..|ts| - 1];
    var last := ts[|ts| - 1];
    ExchangesTail(ts);
    RowAfterStep(ts);
    if |ts| == 2 {
      RowAfterFirstDropped(ts');
    } else {
      RowAfterShape(ts');
    }
    GrowPadded(Exchanges(ts')[1..], Exchange(last.user, last.bot));
  }

  /** Exchanges 2..N are exchanges 2..N-1 followed by the last one. */
  lemma ExchangesTail(ts: seq<Turn>)
    requires |ts| >= 2
    ensures var last := ts[|ts| - 1];
            Exchanges(ts)[1..] == Exchanges(ts[..|ts| - 1])[1..] + [Exchange(last.user, last.bot)]
  {
    ExchangesSnoc(ts);
    var last := ts[|ts| - 1];
    SliceSnoc(Exchanges(ts[..|ts| - 1]), Exchange(last.user, last.bot));
  }

  /** Every row `RowAfter` builds has five columns. */
  lemma {:induction false} RowAfterWidth(ts: seq<Turn>)
    requires |ts| >= 1
    ensures |RowAfter(ts)| == Width
  {
    if |ts| > 1 {
      RowAfterWidth(ts[..|ts| - 1]);
    }
  }

  /** From the second turn on, each turn shifts the row left and fills column 5. */
  lemma RowAfterStep(ts: seq<Turn>)
    requires |ts| >= 2
    ensures var last := ts[|ts| - 1];
            RowAfter(ts) == RowAfter(ts[..|ts| - 1])[1..] + [Some(Exchange(last.user, last.bot))]
  {
    RowAfterWidth(ts[..|ts| - 1]);
  }

  /** After the first turn, columns 2-5 are NULL, like an empty window's. */
  lemma RowAfterFirstDropped(ts: seq<Turn>)
    requires |ts| == 1
    ensures var w := LastN(Exchanges(ts)[1..], Width);
            RowAfter(ts)[1..] == (Nulls(Width - |w|) + Filled(w))[1..]
  {
    RowAfterOne(ts);
    assert Exchanges(ts)[1..] == [];
  }

  /** The first update of a new user fills `conversation1` only. */
  lemma RowAfterOne(ts: seq<Turn>)
    requires |ts| == 1
    ensures RowAfter(ts) == [Some(Exchange(ts[0].user, ts[0].bot))] + Nulls(Width - 1)
  {
  }

  /**
   The row after N >= 2 updates of a user who had none: the non-NULL columns
   hold the last min(N - 1, 5) of exchanges 2..N, oldest first, with NULLs
   only in front. The first exchange is gone from the second update on.
   */
  lemma ReplayFromNew(store: Store, uid: int, ts: seq<Turn>)
    requires uid !in store
    requires |ts| >= 2
    ensures var w := LastN(Exchanges(ts)[1..], Width);
            Get(Replay(store, uid, ts), uid) == Nulls(Width - |w|) + Filled(w)
  {
    ReplayRow(store, uid, ts);
    RowAfterShape(ts);
  }

  /**
   Against a "keep the last five exchanges" window: while fewer than six
   updates have happened the row holds exchanges 2..N only, one fewer than
   the window holds, because the first was dropped on the second update.
   */
  lemma ShortRunDropsOne(store: Store, uid: int, ts: seq<Turn>)
    requires uid !in store
    requires 2 <= |ts| <= Width
    ensures Get(Replay(store, uid, ts), uid) == Nulls(Width - (|ts| - 1)) + Filled(Exchanges(ts)[1..])
    ensures LastN(Exchanges(ts), Width) == Exchanges(ts)
  {
    var xs := Exchanges(ts)[1..];
    assert LastN(xs, Width) == xs;
    ReplayFromNew(store, uid, ts);
  }

  /**
   The difference `ShortRunDropsOne` shows, in one column: after N = 2..5
   updates of a new user, column `Width - N + 1` (1-based) of the row is
   NULL, while the same column of the padded window (which for N <= 5 holds
   every exchange, see `ShortRunDropsOne`) holds the first exchange.
   */
  lemma ShortRunMissesFirst(store: Store, uid: int, ts: seq<Turn>)
    requires uid !in store
    requires 2 <= |ts| <= Width
    ensures var row := Get(Replay(store, uid, ts), uid);
            |row| == Width && row[Width - |ts|] == None
    ensures var window := Nulls(Width - |ts|) + Filled(LastN(Exchanges(ts), Width));
            |window| == Width && window[Width - |ts|] == Some(Exchanges(ts)[0])
  {
    var row := Get(Replay(store, uid, ts), uid);
    var es := Exchanges(ts);
    assert |row| == Width && row[Width - |ts|] == None by {
      ShortRunDropsOne(store, uid, ts);
      PaddedNull(Width - (|ts| - 1), es[1..], Width - |ts|);
    }
    assert LastN(es, Width) == es by {
      ShortRunDropsOne(store, uid, ts);
    }
    PaddedText(Width - |ts|, es, 0);
  }

  /** Inside the padding of a padded row every column is NULL. */
  lemma PaddedNull(k: nat, xs: seq<string>, i: nat)
    requires i < k
    ensures |Nulls(k) + Filled(xs)| == k + |xs|
    ensures (Nulls(k) + Filled(xs))[i] == None
  {
  }

  /** After the padding of a padded row come the texts, in order. */
  lemma PaddedText(k: nat, xs: seq<string>, j: nat)
    requires j < |xs|
    ensures |Nulls(k) + Filled(xs)| == k + |xs|
    ensures (Nulls(k) + Filled(xs))[k + j] == Some(xs[j])
  {
  }

  /**
   From the sixth update on, the row equals the "keep the last five
   exchanges" window: the early loss no longer shows.
   */
  lemma LongRunIsWindow(store: Store, uid: int, ts: seq<Turn>)
    requires uid !in store
    requires |ts| > Width
    ensures Get(Replay(store, uid, ts), uid) == Filled(LastN(Exchanges(ts), Width))
  {
    ReplayFromNew(store, uid, ts);
    var es := Exchanges(ts);
    assert es[1..][|es[1..]| - Width..] == es[|es| - Width..];
  }

  /**
   Two updates of a new user leave only the second exchange, in the last
   column; the first is lost unless both exchanges are the same text.
   */
  lemma SecondUpdateLosesFirst(store: Store, uid: int, u1: string, b1: string, u2: string, b2: string)
    requires uid !in store
    ensures var s := Update(Update(store, uid, u1, b1), uid, u2, b2);
            && Get(s, uid) == [None, None, None, None, Some(Exchange(u2, b2))]
            && (Some(Exchange(u1, b1)) in Get(s, uid) <==> Exchange(u1, b1) == Exchange(u2, b2))
  {
    var s1 := Update(store, uid, u1, b1);
    assert s1[uid] == [Some(Exchange(u1, b1)), None, None, None, None];
  }
}
