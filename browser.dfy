/**
 * The fake browser's URL handling in js/app.js: normalisation of the text
 * typed into the URL bar, and the per-window history list with its cursor
 * that navigate updates.
 */
module Browser {
  import opened Text

  /** The regular expression /^https?:\/\//i. */
  predicate HasHttpScheme(u: string)
  {
    StartsWithIgnoringCase(u, "http://") || StartsWithIgnoringCase(u, "https://")
  }

  /** normalize(u): trimmed; "" when blank; "https://" prepended unless it already has an http(s) scheme. */
  function Normalize(u: string): string
  {
    var t := Trim(u);
    if t == [] then []
    else if HasHttpScheme(t) then t
    else "https://" + t
  }

  /**
   * The result of normalize is empty exactly for blank input; otherwise it
   * is the trimmed input, prefixed with "https://" exactly when it had no
   * http(s) scheme, and it has such a scheme and no surrounding whitespace.
   */
  lemma NormalizeResult(u: string)
    ensures Normalize(u) == [] <==> Trim(u) == []
    ensures Trim(u) != [] && HasHttpScheme(Trim(u)) ==> Normalize(u) == Trim(u)
    ensures Trim(u) != [] && !HasHttpScheme(Trim(u)) ==> Normalize(u) == "https://" + Trim(u)
    ensures Normalize(u) != [] ==> HasHttpScheme(Normalize(u)) && IsTrimmed(Normalize(u))
  {
    var t := Trim(u);
    TrimSplits(u);
    if t != [] && !HasHttpScheme(t) {
      var n := "https://" + t;
      assert n[|n| - 1] == t[|t| - 1];
      assert StartsWithIgnoringCase(n, "https://") by {
        assert n[..8] == "https://";
      }
    }
  }

  /** normalize is idempotent. */
  lemma NormalizeIdempotent(u: string)
    ensures Normalize(Normalize(u)) == Normalize(u)
  {
    var n := Normalize(u);
    NormalizeResult(u);
    if n != [] {
      TrimmedIsFixed(n);
    }
  }

  /** The history of one browser window: win._hist and win._pos. */
  datatype History = History(entries: seq<string>, pos: int)

  /** A new browser window's history. */
  const EmptyHistory := History([], -1)

  /** Array.prototype.slice(0, end), with JavaScript's clamping of end. */
  function SliceTo(s: seq<string>, end: int): seq<string>
  {
    var k := if end < 0 then (if |s| + end < 0 then 0 else |s| + end) else if end > |s| then |s| else end;
    s[..k]
  }

  /** The history update of navigate: keep the entries up to the cursor, push the URL, point at it. */
  function Pushed(h: History, url: string): History
  {
    var kept := SliceTo(h.entries, h.pos + 1) + [url];
    History(kept, |kept| - 1)
  }

  /** navigate(u) on the history: a blank URL returns early, any other pushes its normalised form. */
  function Navigated(h: History, u: string): History
  {
    var n := Normalize(u);
    if n == [] then h else Pushed(h, n)
  }

  /** The cursor is -1 or an index of the list. */
  predicate ValidHistory(h: History)
  {
    -1 <= h.pos < |h.entries|
  }

  /** The cursor is on the newest entry. */
  predicate AtNewest(h: History)
  {
    h.pos == |h.entries| - 1
  }

  /**
   * navigate with a blank URL leaves the history alone; otherwise the
   * entries up to and including the cursor are kept, the forward ones are
   * dropped, the normalised URL is pushed, and the cursor points at it.
   */
  lemma NavigateEffect(h: History, u: string)
    requires ValidHistory(h)
    ensures Trim(u) == [] ==> Navigated(h, u) == h
    ensures Trim(u) != [] ==>
      && Navigated(h, u).entries == h.entries[..h.pos + 1] + [Normalize(u)]
      && AtNewest(Navigated(h, u)) && ValidHistory(Navigated(h, u))
  {
    NormalizeResult(u);
  }

  /** The entry one navigation adds: none for a blank URL, its normalised form otherwise. */
  function Visit(u: string): seq<string>
  {
    if Normalize(u) == [] then [] else [Normalize(u)]
  }

  /** The normalised, non-blank URLs of a sequence of navigations, in order. */
  function Visited(us: seq<string>): seq<string>
  {
    if us == [] then [] else Visit(us[0]) + Visited(us[1..])
  }

  lemma ConcatAssociates(a: seq<string>, b: seq<string>, c: seq<string>)
    ensures a + (b + c) == (a + b) + c
  {
  }

  /** A sequence of navigations. */
  function NavigatedAll(h: History, us: seq<string>): History
    decreases |us|
  {
    if us == [] then h else NavigatedAll(Navigated(h, us[0]), us[1..])
  }

  /** With the cursor on the newest entry, one navigation appends its entry and nothing is dropped. */
  lemma NavigatedAtNewest(h: History, u: string)
    requires AtNewest(h)
    ensures Navigated(h, u) == History(h.entries + Visit(u), |h.entries + Visit(u)| - 1)
  {
    if Normalize(u) != [] {
      assert SliceTo(h.entries, h.pos + 1) == h.entries;
    }
  }

  /**
   * With no back or forward action, the cursor stays on the newest entry,
   * so navigation never drops an entry: the history is everything visited,
   * in order.
   */
  lemma {:induction false} HistoryRecordsVisits(h: History, us: seq<string>)
    requires AtNewest(h)
    ensures NavigatedAll(h, us) == History(h.entries + Visited(us), |h.entries + Visited(us)| - 1)
    decreases |us|
  {
    if us != [] {
      var h' := Navigated(h, us[0]);
      NavigatedAtNewest(h, us[0]);
      HistoryRecordsVisits(h', us[1..]);
      var first, rest := Visit(us[0]), Visited(us[1..]);
      assert Visited(us) == first + rest;
      var before, after := h.entries, h'.entries;
      assert after == before + first;
      ConcatAssociates(before, first, rest);
      assert NavigatedAll(h, us) == NavigatedAll(h', us[1..]);
    }
  }
}
