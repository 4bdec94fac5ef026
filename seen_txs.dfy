/** The bounded record of handled transaction hashes, `deque(maxlen=5000)`. */
module SeenTxs {

  const SEEN_CAPACITY: nat := 5000

  /** `seen.append(h)` on a deque with `maxlen`: when it is full the oldest
      entry (the left end) is dropped first. */
  function Appended(seen: seq<string>, h: string): (r: seq<string>)
    requires |seen| <= SEEN_CAPACITY
    ensures 0 < |r| <= SEEN_CAPACITY && r[|r| - 1] == h
    ensures h in r
    ensures |seen| < SEEN_CAPACITY ==> r[..|r| - 1] == seen
    ensures |seen| == SEEN_CAPACITY ==> r[..|r| - 1] == seen[1..]
  {
    if |seen| < SEEN_CAPACITY then seen + [h] else seen[1..] + [h]
  }

  /** Appending each hash of `hs` in turn. */
  function AppendAll(seen: seq<string>, hs: seq<string>): (r: seq<string>)
    requires |seen| <= SEEN_CAPACITY
    ensures |r| <= SEEN_CAPACITY
    decreases |hs|
  {
    if hs == [] then seen else AppendAll(Appended(seen, hs[0]), hs[1..])
  }

  /** The newest `SEEN_CAPACITY` entries of a history, oldest first. */
  function Newest(history: seq<string>): seq<string> {
    if |history| <= SEEN_CAPACITY then history else history[|history| - SEEN_CAPACITY..]
  }

  /** One append keeps the newest entries of the history extended by `h`. */
  lemma AppendedIsNewest(seen: seq<string>, h: string)
    requires |seen| <= SEEN_CAPACITY
    ensures Appended(seen, h) == Newest(seen + [h])
  {
    if |seen| == SEEN_CAPACITY {
      assert (seen + [h])[1..] == seen[1..] + [h];
    }
  }

  lemma NewestOfNewest(x: seq<string>, y: seq<string>)
    ensures Newest(Newest(x) + y) == Newest(x + y)
  {
    if |x| > SEEN_CAPACITY {
      var nx := Newest(x);
      assert x + y == x[..|x| - SEEN_CAPACITY] + (nx + y);
    }
  }

  /** Whatever has been appended, the deque holds exactly the newest
      `SEEN_CAPACITY` hashes of everything it was given, in order. */
  lemma {:induction false} AppendAllIsNewest(seen: seq<string>, hs: seq<string>)
    requires |seen| <= SEEN_CAPACITY
    ensures AppendAll(seen, hs) == Newest(seen + hs)
    decreases |hs|
  {
    if hs == [] {
      assert seen + hs == seen;
    } else {
      var next := Appended(seen, hs[0]);
      calc {
        AppendAll(seen, hs);
        AppendAll(next, hs[1..]);
        { AppendAllIsNewest(next, hs[1..]); }
        Newest(next + hs[1..]);
        { AppendedIsNewest(seen, hs[0]); }
        Newest(Newest(seen + [hs[0]]) + hs[1..]);
        { NewestOfNewest(seen + [hs[0]], hs[1..]); }
        Newest(seen + [hs[0]] + hs[1..]);
        { assert seen + [hs[0]] + hs[1..] == seen + hs; }
        Newest(seen + hs);
      }
    }
  }

  /** A hash stays recorded while fewer than `SEEN_CAPACITY` hashes have been
      appended after it. */
  lemma RecordedHashSurvives(seen: seq<string>, hs: seq<string>, i: nat)
    requires |seen| <= SEEN_CAPACITY && i < |hs|
    requires |hs| - i <= SEEN_CAPACITY
    ensures hs[i] in AppendAll(seen, hs)
  {
    AppendAllIsNewest(seen, hs);
    var all := seen + hs;
    assert all[|seen| + i] == hs[i];
    if |all| > SEEN_CAPACITY {
      assert Newest(all)[|seen| + i - (|all| - SEEN_CAPACITY)] == hs[i];
    }
  }

  /** Appending `SEEN_CAPACITY + 1` distinct hashes to an empty record
      evicts the first of them. */
  lemma OldestEvictedFirst(hs: seq<string>)
    requires |hs| == SEEN_CAPACITY + 1
    requires forall i, j :: 0 <= i < j < |hs| ==> hs[i] != hs[j]
    ensures hs[0] !in AppendAll([], hs)
    ensures AppendAll([], hs) == hs[1..]
  {
    AppendAllIsNewest([], hs);
    assert [] + hs == hs;
  }
}
