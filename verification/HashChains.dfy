/**
 The dictionary behind the string matcher: hash heads and links packed in one table.
 `keys` names the window positions that have been filed, each with its hash key; `code`
 gives the key of every string of the input, and `base` the input position that window
 index 0 shows.
 */
module HashChains {

  const HASH_SIZE := 8192
  const WSIZE := 32768
  const WINDOW_SIZE := 65536
  const NIL := 0

  /** A filed position lies below `next` and carries the key of the string that starts there. */
  ghost predicate KeysOk(code: seq<int>, base: int, keys: map<int, int>, next: int) {
    && 0 <= base
    && forall p :: p in keys ==>
         && 0 <= p < next
         && (base + p < |code| ==> keys[p] == code[base + p])
  }

  /** A head is empty or a position filed under its slot. */
  ghost predicate HeadsOk(table: seq<int>, keys: map<int, int>)
    requires |table| == WINDOW_SIZE
  {
    forall i :: WSIZE <= i < WSIZE + HASH_SIZE ==>
      table[i] == NIL || (table[i] in keys && keys[table[i]] == i - WSIZE)
  }

  ghost predicate LinkOk(keys: map<int, int>, p: int, q: int) {
    q == NIL || (p in keys && q in keys && q < p && keys[q] == keys[p])
  }

  function Link(table: seq<int>, p: int): int
    requires |table| == WINDOW_SIZE && 0 <= p
  {
    table[p % WSIZE]
  }

  /** The positions met on the way down a chain, as long as they exceed `limit`, `budget` at most. */
  function ChainFrom(table: seq<int>, p: int, limit: int, budget: nat): seq<int>
    requires |table| == WINDOW_SIZE && 0 <= p && 0 <= limit
    decreases budget
  {
    if budget == 0 then []
    else if Link(table, p) > limit then [p] + ChainFrom(table, Link(table, p), limit, budget - 1)
    else [p]
  }

  lemma ChainStep(table: seq<int>, tried: seq<int>, p: int, limit: int, budget: nat)
    requires |table| == WINDOW_SIZE && 0 <= p && 0 <= limit && budget >= 1
    ensures Link(table, p) > limit && budget > 1 ==>
              tried + ChainFrom(table, p, limit, budget)
              == tried + [p] + ChainFrom(table, Link(table, p), limit, budget - 1)
    ensures Link(table, p) <= limit || budget == 1 ==>
              tried + ChainFrom(table, p, limit, budget) == tried + [p]
  {
  }

  /** The link of a position less than WSIZE behind `next` leads back within the same key. */
  ghost predicate LinksOk(table: seq<int>, keys: map<int, int>, next: int)
    requires |table| == WINDOW_SIZE
  {
    forall p {:trigger Link(table, p)} ::
      p in keys && next - WSIZE <= p && 0 <= p ==> LinkOk(keys, p, Link(table, p))
  }

  ghost predicate Chains(code: seq<int>, base: int, table: seq<int>, keys: map<int, int>, next: int) {
    && |table| == WINDOW_SIZE
    && KeysOk(code, base, keys, next)
    && HeadsOk(table, keys)
    && LinksOk(table, keys, next)
  }

  /** No position filed with the same key before p is later than its link. */
  ghost predicate LinkWhole(keys: map<int, int>, p: int, q: int) {
    p in keys && forall c :: c in keys && c < p && keys[c] == keys[p] ==> c <= q
  }

  /** Nothing is left out: heads and links lead to the latest position filed with the key. */
  ghost predicate Whole(table: seq<int>, keys: map<int, int>, next: int)
    requires |table| == WINDOW_SIZE
  {
    && (forall p :: p in keys ==> 0 <= keys[p] < HASH_SIZE && p <= table[WSIZE + keys[p]])
    && (forall p {:trigger Link(table, p)} :: p in keys && next - WSIZE <= p && 0 <= p ==> LinkWhole(keys, p, Link(table, p)))
  }

  lemma {:induction false} InsertKeepsWhole(table: seq<int>, keys: map<int, int>, s: int, h: int)
    requires |table| == WINDOW_SIZE && Whole(table, keys, s) && 0 <= s < WINDOW_SIZE && 0 <= h < HASH_SIZE
    requires forall p :: p in keys ==> 0 <= p < s
    ensures Whole(Inserted(table, s, h), keys[s := h], s + 1) && LinkWhole(keys[s := h], s, table[WSIZE + h])
  {
    var table', keys' := Inserted(table, s, h), keys[s := h];
    assert forall p :: p in keys' <==> p == s || p in keys;
    forall p | p in keys' && s + 1 - WSIZE <= p && 0 <= p
      ensures LinkWhole(keys', p, Link(table', p))
    {
      if p != s {
        DistinctSlots(p, s);
        assert LinkWhole(keys, p, Link(table, p));
      }
    }
  }

  lemma {:induction false} SlideKeepsWhole(table: seq<int>, table': seq<int>, keys: map<int, int>, keys': map<int, int>, next: int)
    requires |table| == WINDOW_SIZE && Whole(table, keys, next) && Slid(table, table') && KeysSlid(keys, keys')
    ensures Whole(table', keys', next - WSIZE)
  {
    forall p | p in keys' && next - WSIZE - WSIZE <= p && 0 <= p
      ensures LinkWhole(keys', p, Link(table', p))
    {
      assert (p + WSIZE) % WSIZE == p % WSIZE;
      assert LinkWhole(keys, p + WSIZE, Link(table, p + WSIZE));
      forall c | c in keys' && c < p && keys'[c] == keys'[p]
        ensures c <= Link(table', p)
      {
        assert c + WSIZE in keys;
      }
    }
    forall p | p in keys'
      ensures 0 <= keys'[p] < HASH_SIZE && p <= table'[WSIZE + keys'[p]]
    {
      assert p + WSIZE in keys;
    }
  }

  /** A filed position with the key of the string at s, behind the limit. */
  ghost predicate Filed(keys: map<int, int>, s: int, key: int, limit: int, c: int) {
    c in keys && keys[c] == key && limit < c < s
  }

  /** The latest of these positions, latest first: all there are, or as many as may be tried. */
  ghost predicate Latest(tried: seq<int>, keys: map<int, int>, s: int, key: int, limit: int, budget: int) {
    && (forall i :: 0 <= i < |tried| ==> Filed(keys, s, key, limit, tried[i]))
    && (forall i, j :: 0 <= i < j < |tried| ==> tried[j] < tried[i])
    && (forall c :: Filed(keys, s, key, limit, c) && c !in tried ==> |tried| == budget && forall i :: 0 <= i < |tried| ==> c < tried[i])
  }

  /** A chain lists them. */
  lemma {:induction false} ChainIsLatest(table: seq<int>, keys: map<int, int>, next: int, s: int, p: int, limit: int, budget: nat)
    requires |table| == WINDOW_SIZE && Whole(table, keys, next) && LinksOk(table, keys, next) && 0 <= limit && next - WSIZE <= limit
    requires p in keys && limit < p < s && budget >= 1 && (forall c :: Filed(keys, s, keys[p], limit, c) ==> c <= p)
    ensures Latest(ChainFrom(table, p, limit, budget), keys, s, keys[p], limit, budget)
    decreases budget, 0
  {
    var q := Link(table, p);
    assert LinkOk(keys, p, q) && LinkWhole(keys, p, q);
    if q > limit && budget > 1 {
      ChainRest(table, keys, next, s, p, q, limit, budget - 1);
    }
  }

  lemma {:induction false} ChainRest(table: seq<int>, keys: map<int, int>, next: int, s: int, p: int, q: int, limit: int, budget: nat)
    requires |table| == WINDOW_SIZE && Whole(table, keys, next) && LinksOk(table, keys, next) && 0 <= limit && next - WSIZE <= limit
    requires p in keys && limit < p < s && budget >= 1 && (forall c :: Filed(keys, s, keys[p], limit, c) ==> c <= p)
    requires q == Link(table, p) && q > limit && LinkOk(keys, p, q) && LinkWhole(keys, p, q)
    ensures Latest([p] + ChainFrom(table, q, limit, budget), keys, s, keys[p], limit, budget + 1)
    decreases budget, 1
  {
    var rest := ChainFrom(table, q, limit, budget);
    ChainIsLatest(table, keys, next, p, q, limit, budget);
    var tried := [p] + rest;
    forall c | Filed(keys, s, keys[p], limit, c) && c !in tried
      ensures |tried| == budget + 1 && forall i :: 0 <= i < |tried| ==> c < tried[i]
    {
      assert c != p by { assert tried[0] == p; }
      assert forall i :: 0 <= i < |rest| ==> rest[i] == tried[i + 1];
      assert Filed(keys, p, keys[q], limit, c) && c !in rest;
    }
  }

  function Inserted(table: seq<int>, s: int, h: int): seq<int>
    requires |table| == WINDOW_SIZE && 0 <= s < WINDOW_SIZE && 0 <= h < HASH_SIZE
  {
    table[s % WSIZE := table[WSIZE + h]][WSIZE + h := s]
  }

  lemma WholeWeakens(table: seq<int>, keys: map<int, int>, next: int, later: int)
    requires |table| == WINDOW_SIZE && Whole(table, keys, next) && next <= later
    ensures Whole(table, keys, later)
  {
  }

  lemma KeysBelow(code: seq<int>, base: int, table: seq<int>, keys: map<int, int>, next: int)
    requires Chains(code, base, table, keys, next)
    ensures |table| == WINDOW_SIZE && forall p :: p in keys ==> 0 <= p < next
  {
  }

  lemma ChainsWeaken(code: seq<int>, base: int, table: seq<int>, keys: map<int, int>, next: int, later: int)
    requires Chains(code, base, table, keys, next) && next <= later
    ensures Chains(code, base, table, keys, later)
  {
  }

  /** Filing one more position keeps the dictionary sound and gives up only the oldest link. */
  lemma InsertKeepsChains(code: seq<int>, base: int, table: seq<int>, keys: map<int, int>, s: int, h: int)
    requires Chains(code, base, table, keys, s)
    requires 0 <= s < WINDOW_SIZE && 0 <= h < HASH_SIZE
    requires base + s < |code| ==> h == code[base + s]
    ensures Chains(code, base, Inserted(table, s, h), keys[s := h], s + 1)
    ensures LinkOk(keys[s := h], s, table[WSIZE + h])
  {
    var table', keys' := Inserted(table, s, h), keys[s := h];
    assert forall p :: p in keys' <==> p == s || p in keys;
    forall p | p in keys' && s + 1 - WSIZE <= p && 0 <= p
      ensures LinkOk(keys', p, Link(table', p))
    {
      if p == s {
      } else {
        DistinctSlots(p, s);
        assert LinkOk(keys, p, Link(table, p));
      }
    }
  }

  lemma DistinctSlots(p: int, s: int)
    requires 0 <= p < s < p + WSIZE
    ensures p % WSIZE != s % WSIZE
  {
  }

  function Lowered(m: int): int {
    if m >= WSIZE then m - WSIZE else NIL
  }

  /** Table `table'` is `table` after the window has moved down by WSIZE. */
  ghost predicate Slid(table: seq<int>, table': seq<int>) {
    && |table| == |table'| == WINDOW_SIZE
    && forall i :: 0 <= i < WSIZE + HASH_SIZE ==> table'[i] == Lowered(table[i])
  }

  ghost predicate KeysSlid(keys: map<int, int>, keys': map<int, int>) {
    && (forall p :: p in keys' <==> 0 <= p && p + WSIZE in keys)
    && (forall p :: p in keys' ==> keys'[p] == keys[p + WSIZE])
  }

  lemma SlideKeys(keys: map<int, int>) returns (keys': map<int, int>)
    ensures KeysSlid(keys, keys')
  {
    var moved := set q | q in keys && q >= WSIZE :: q - WSIZE;
    keys' := map p | p in moved :: keys[p + WSIZE];
  }

  /** Moving the window down renames every position it keeps and cuts the chains below it. */
  lemma SlideKeepsChains(code: seq<int>, base: int, table: seq<int>, table': seq<int>,
                         keys: map<int, int>, keys': map<int, int>, next: int)
    requires Chains(code, base, table, keys, next) && Slid(table, table') && KeysSlid(keys, keys')
    ensures Chains(code, base + WSIZE, table', keys', next - WSIZE)
  {
    forall p | p in keys' && next - WSIZE - WSIZE <= p && 0 <= p
      ensures LinkOk(keys', p, Link(table', p))
    {
      assert (p + WSIZE) % WSIZE == p % WSIZE;
      var q := table[p % WSIZE];
      assert LinkOk(keys, p + WSIZE, Link(table, p + WSIZE));
      assert q >= WSIZE ==> (q - WSIZE) + WSIZE in keys;
    }
    forall i | WSIZE <= i < WSIZE + HASH_SIZE
      ensures table'[i] == NIL || (table'[i] in keys' && keys'[table'[i]] == i - WSIZE)
    {
      assert table[i] >= WSIZE ==> (table[i] - WSIZE) + WSIZE in keys;
    }
  }
}
