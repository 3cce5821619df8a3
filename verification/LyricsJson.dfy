/**
  How the lyrics client skips a value in a token array. It reads the size of an
  object as its number of keys and values together; the tokenizer counts pairs.
  So the skip is right exactly for values without a non-empty object, and stops
  short on every other value; and the search for a key of an object, which relies on
  it, stops after the first half of the pairs.
 */
module LyricsJson {
  import opened JsmnGrammar
  import opened JsmnSpec
  import opened Text
  import opened JsmnRoundTrip

  // ----- the skip -----

  /** The index after the value at `idx`, as the client computes it. */
  function End(toks: seq<Token>, idx: nat): (r: nat)
    ensures idx < |toks| ==> idx < r
    ensures idx >= |toks| ==> r == idx
    decreases |toks| - idx, 0
  {
    if idx >= |toks| then idx
    else if !IsContainer(toks[idx]) then idx + 1
    else Walk(toks, idx + 1, toks[idx].size)
  }

  /** Past `n` values from index `p` on, or to the end of the array. */
  function Walk(toks: seq<Token>, p: nat, n: int): (r: nat)
    ensures r >= p
    decreases |toks| - p, 1
  {
    if n <= 0 || p >= |toks| then p else Walk(toks, End(toks, p), n - 1)
  }

  method ContainerEnd(tokens: seq<Token>, num: nat, idx: int) returns (r: int)
    requires num <= |tokens|
    ensures idx < 0 ==> r == idx
    ensures idx >= 0 ==> r == End(tokens[..num], idx)
    decreases num - idx
  {
    if idx < 0 || idx >= num {
      return idx;
    }
    var t := tokens[idx].typ;
    if t != Object && t != Array {
      return idx + 1;
    }
    var width := 1;
    var i := 0;
    ghost var toks := tokens[..num];
    while i < tokens[idx].size
      invariant 0 <= i && 1 <= width
      invariant Walk(toks, idx + width, tokens[idx].size - i) == End(toks, idx)
    {
      if idx + width >= num {
        break;
      }
      var ct := tokens[idx + width].typ;
      if ct == Object || ct == Array {
        var subEnd := ContainerEnd(tokens, num, idx + width);
        width := width + (subEnd - (idx + width));
      } else {
        width := width + 1;
      }
      i := i + 1;
    }
    return idx + width;
  }

  // ----- no value is skipped too far -----

  lemma {:induction false} EndInValue(toks: seq<Token>, k: nat, v: Value, off: nat, q: nat)
    requires At(toks, k, Flat(v, off)) && k <= q < k + Nodes(v)
    ensures End(toks, q) <= k + Nodes(v)
    decreases v
  {
    AtChar(toks, k, Flat(v, off), 0);
    if v.Arr? || v.Obj? {
      FlatContainer(toks, k, v, off);
      if q == k {
        WalkInEntries(toks, k + 1, k + 1, v.entries, true, off + 1 + |v.ws|, k + 1, Count(v.entries));
      } else {
        EndInEntries(toks, k + 1, v.entries, true, off + 1 + |v.ws|, q);
      }
    }
  }

  lemma FlatContainer(toks: seq<Token>, k: nat, v: Value, off: nat)
    requires (v.Arr? || v.Obj?) && At(toks, k, Flat(v, off))
    ensures toks[k] == Flat(v, off)[0] && IsContainer(toks[k]) && toks[k].size == Count(v.entries)
    ensures At(toks, k + 1, FlatEntries(v.entries, true, off + 1 + |v.ws|))
  {
    AtChar(toks, k, Flat(v, off), 0);
    AtSplit(toks, k, [Flat(v, off)[0]], FlatEntries(v.entries, true, off + 1 + |v.ws|));
  }

  /** Where the entries after the first one are. */
  function RestOffset(entries: Entries, first: bool, off: nat): nat
    requires entries.Entries?
  {
    off + |Comma(first)| + |entries.before| + |RenderEntry(entries.e)| + |entries.after|
  }

  lemma FlatFirst(toks: seq<Token>, k: nat, entries: Entries, first: bool, off: nat)
    requires entries.Entries? && At(toks, k, FlatEntries(entries, first, off))
    ensures At(toks, k, FlatEntry(entries.e, off + |Comma(first)| + |entries.before|))
    ensures At(toks, k + NodesEntry(entries.e), FlatEntries(entries.rest, false, RestOffset(entries, first, off)))
  {
    AtSplit(toks, k, FlatEntry(entries.e, off + |Comma(first)| + |entries.before|),
            FlatEntries(entries.rest, false, RestOffset(entries, first, off)));
  }

  lemma FlatPair(toks: seq<Token>, k: nat, e: Entry, off: nat) returns (off': nat)
    requires e.Pair? && At(toks, k, FlatEntry(e, off))
    ensures toks[k].typ == String && At(toks, k + 1, Flat(e.v, off'))
  {
    off' := off + |Quoted(e.key)| + |e.colonBefore| + 1 + |e.colonAfter|;
    AtSplit(toks, k, [FlatEntry(e, off)[0]], Flat(e.v, off'));
    AtChar(toks, k, FlatEntry(e, off), 0);
  }

  lemma {:induction false} EndInEntry(toks: seq<Token>, k: nat, e: Entry, off: nat, q: nat)
    requires At(toks, k, FlatEntry(e, off)) && k <= q < k + NodesEntry(e)
    ensures End(toks, q) <= k + NodesEntry(e)
    decreases e, 0
  {
    if e.Elem? {
      EndInValue(toks, k, e.v, off, q);
    } else {
      var off' := FlatPair(toks, k, e, off);
      if q > k {
        EndInValue(toks, k + 1, e.v, off', q);
      }
    }
  }

  lemma {:induction false} EndInEntries(toks: seq<Token>, k: nat, entries: Entries, first: bool, off: nat, q: nat)
    requires At(toks, k, FlatEntries(entries, first, off)) && k <= q < k + NodesEntries(entries)
    ensures End(toks, q) <= k + NodesEntries(entries)
    decreases entries
  {
    hide At;
    hide FlatEntries;
    hide FlatEntry;
    FlatFirst(toks, k, entries, first, off);
    if q < k + NodesEntry(entries.e) {
      EndInEntry(toks, k, entries.e, off + |Comma(first)| + |entries.before|, q);
    } else {
      EndInEntries(toks, k + NodesEntry(entries.e), entries.rest, false, RestOffset(entries, first, off), q);
    }
  }

  /** Every value that starts in `lo..k` ends there. */
  predicate EndsBy(toks: seq<Token>, lo: nat, k: nat) {
    forall q :: lo <= q < k ==> End(toks, q) <= k
  }

  lemma {:induction false} EntryEndsBy(toks: seq<Token>, lo: nat, k: nat, e: Entry, off: nat)
    requires At(toks, k, FlatEntry(e, off)) && EndsBy(toks, lo, k)
    ensures EndsBy(toks, lo, k + NodesEntry(e))
    decreases e, 1
  {
    hide At;
    hide End;
    forall q | lo <= q < k + NodesEntry(e)
      ensures End(toks, q) <= k + NodesEntry(e)
    {
      if q >= k {
        EndInEntry(toks, k, e, off, q);
      }
    }
  }

  /**
    A walk that starts at or before entry list `entries`, and counts no more values
    than it has, does not leave it; late or short of values, it stops inside.
   */
  lemma {:induction false} WalkInEntries(toks: seq<Token>, lo: nat, k: nat, entries: Entries, first: bool, off: nat, p: nat, m: nat)
    requires At(toks, k, FlatEntries(entries, first, off)) && EndsBy(toks, lo, k)
    requires lo <= p <= k && m <= Count(entries)
    ensures Walk(toks, p, m) <= k + NodesEntries(entries)
    ensures entries.Entries? && (p < k || m < Count(entries)) ==> Walk(toks, p, m) < k + NodesEntries(entries)
    decreases entries
  {
    hide At;
    hide FlatEntries;
    hide FlatEntry;
    if entries.Entries? {
      var k' := k + NodesEntry(entries.e);
      FlatFirst(toks, k, entries, first, off);
      NodesPositive(entries.e);
      if m > 0 {
        EntryEndsBy(toks, lo, k, entries.e, off + |Comma(first)| + |entries.before|);
        WalkInEntries(toks, lo, k', entries.rest, false, RestOffset(entries, first, off), End(toks, p), m - 1);
      }
    }
  }

  lemma NodesPositive(e: Entry)
    ensures NodesEntry(e) >= 1 && (e.Pair? ==> NodesEntry(e) >= 2)
  {
  }

  // ----- when the skip is right -----

  /** Without a non-empty object anywhere inside. */
  predicate NoPairs(v: Value) {
    match v
    case Arr(_, entries) => NoPairsIn(entries)
    case Obj(_, entries) => entries.NoEntries?
    case _ => true
  }

  predicate NoPairsIn(entries: Entries) {
    match entries
    case NoEntries => true
    case Entries(_, e, _, rest) => NoPairs(e.v) && NoPairsIn(rest)
  }

  /** The elements of an array are skipped right up to the first that holds a pair. */
  lemma {:induction false} WalkElements(toks: seq<Token>, k: nat, entries: Entries, first: bool, off: nat)
    requires ValidEntries(entries, false) && At(toks, k, FlatEntries(entries, first, off))
    ensures Walk(toks, k, Count(entries)) <= k + NodesEntries(entries)
    ensures Walk(toks, k, Count(entries)) == k + NodesEntries(entries) <==> NoPairsIn(entries)
    decreases entries
  {
    hide At;
    hide FlatEntries;
    if entries.Entries? {
      var k' := k + NodesEntry(entries.e);
      var off' := off + |Comma(first)| + |entries.before|;
      FlatFirst(toks, k, entries, first, off);
      EndExact(toks, k, entries.e.v, off');
      if NoPairs(entries.e.v) {
        WalkElements(toks, k', entries.rest, false, RestOffset(entries, first, off));
      } else {
        EntryEndsBy(toks, k, k, entries.e, off');
        WalkInEntries(toks, k, k', entries.rest, false, RestOffset(entries, first, off), End(toks, k), Count(entries.rest));
      }
    }
  }

  /**
    In the tokens of a document, skipping a value ends right after it exactly when
    the value has no non-empty object in it; otherwise it ends before.
   */
  lemma {:induction false} EndExact(toks: seq<Token>, k: nat, v: Value, off: nat)
    requires Valid(v) && At(toks, k, Flat(v, off))
    ensures End(toks, k) <= k + Nodes(v)
    ensures End(toks, k) == k + Nodes(v) <==> NoPairs(v)
    decreases v
  {
    AtChar(toks, k, Flat(v, off), 0);
    if v.Arr? {
      FlatContainer(toks, k, v, off);
      WalkElements(toks, k + 1, v.entries, true, off + 1 + |v.ws|);
    } else if v.Obj? {
      FlatContainer(toks, k, v, off);
      if v.entries.Entries? {
        WalkPairs(toks, k + 1, v.entries, off + 1 + |v.ws|);
      }
    }
  }

  /** The first key of an object is taken for a whole pair: the walk is short from there on. */
  lemma WalkPairs(toks: seq<Token>, k: nat, entries: Entries, off: nat)
    requires entries.Entries? && ValidEntries(entries, true) && At(toks, k, FlatEntries(entries, true, off))
    ensures Walk(toks, k, Count(entries)) < k + NodesEntries(entries)
  {
    hide At;
    hide FlatEntries;
    hide FlatEntry;
    var k' := k + NodesEntry(entries.e);
    var off' := off + |entries.before|;
    FlatFirst(toks, k, entries, true, off);
    NodesPositive(entries.e);
    var _ := FlatPair(toks, k, entries.e, off');
    assert End(toks, k) == k + 1 < k';
    EntryEndsBy(toks, k, k, entries.e, off');
    WalkInEntries(toks, k, k', entries.rest, false, RestOffset(entries, true, off), k + 1, Count(entries.rest));
  }

  /** The smallest object on which it shows: of its two pairs only the first is inside the skip. */
  lemma TwoPairs()
    ensures var second := Entries("", Pair("b", "", "", Prim("2")), "", NoEntries);
            var v := Obj("", Entries("", Pair("a", "", "", Prim("1")), "", second));
            Valid(v) && Nodes(v) == 5 && End(Flat(v, 0), 0) == 3
  {
    hide Render;
    var second := Entries("", Pair("b", "", "", Prim("2")), "", NoEntries);
    var first := Pair("a", "", "", Prim("1"));
    var v := Obj("", Entries("", first, "", second));
    assert StringBody("a") && StringBody("b");
    assert NodesEntries(second) == 2;
    assert ValidEntries(second, true);
    var toks := Flat(v, 0);
    assert Count(v.entries) == 2;
    assert toks[1] == FlatEntry(first, 1)[0];
    assert toks[2] == FlatEntry(first, 1)[1] == Flat(Prim("1"), 5)[0];
    assert End(toks, 1) == 2 && End(toks, 2) == 3;
    assert Walk(toks, 3, 0) == 3;
    assert Walk(toks, 2, 1) == 3;
    assert Walk(toks, 1, 2) == 3;
  }

  // ----- looking for a key -----

  /** The token is a string, and its text is `key`. */
  predicate TokenIs(js: string, t: Token, key: string) {
    t.typ == String && 0 <= t.start <= t.end <= |js| && js[t.start..t.end] == key
  }

  /** The search from index `i` up to `end`: a key, and unless it is the one, past its value. */
  function Scan(js: string, toks: seq<Token>, i: nat, end: nat, key: string): int
    decreases |toks| - i
  {
    if i >= end || i >= |toks| then -1
    else if TokenIs(js, toks[i], key) then i + 1
    else if i + 1 < end && i + 1 < |toks| then Scan(js, toks, End(toks, i + 1), end, key)
    else -1
  }

  /** The index of the value of a key of the object at `k`, as the client finds it; -1 if it does not. */
  function FindIn(js: string, toks: seq<Token>, k: nat, key: string): int {
    if k >= |toks| || toks[k].typ != Object then -1 else Scan(js, toks, k + 1, End(toks, k), key)
  }

  method FindKeyInObject(json: string, tokens: seq<Token>, num: nat, idx: int, key: string) returns (r: int)
    requires num <= |tokens|
    requires forall t :: t in tokens[..num] && t.typ == String ==> 0 <= t.start <= t.end <= |json|
    ensures r == if idx < 0 then -1 else FindIn(json, tokens[..num], idx, key)
  {
    ghost var toks := tokens[..num];
    if idx < 0 || idx >= num {
      return -1;
    }
    if tokens[idx].typ != Object {
      return -1;
    }
    var end := ContainerEnd(tokens, num, idx);
    var i := idx + 1;
    while i < end && i < num
      invariant idx < i
      invariant Scan(json, toks, i, end, key) == FindIn(json, toks, idx, key)
      decreases num - i
    {
      if tokens[i].typ == String {
        assert tokens[i] in toks by {
          assert toks[i] == tokens[i];
        }
        if tokens[i].end - tokens[i].start == |key| && json[tokens[i].start..tokens[i].end] == key {
          return i + 1;
        }
      }
      i := i + 1;
      if i < end && i < num {
        if tokens[i].typ == Object || tokens[i].typ == Array {
          i := ContainerEnd(tokens, num, i);
        } else {
          i := i + 1;
        }
      }
    }
    return -1;
  }

  predicate IsKey(e: Entry, key: string) {
    e.Pair? && e.key == key
  }

  /** The first pair with a key; the number of pairs if there is none. */
  function FirstKey(entries: Entries, key: string): (j: nat)
    ensures j <= Count(entries)
  {
    if entries.NoEntries? || IsKey(entries.e, key) then 0 else 1 + FirstKey(entries.rest, key)
  }

  function Nth(entries: Entries, j: nat): Entry
    requires j < Count(entries)
  {
    if j == 0 then entries.e else Nth(entries.rest, j - 1)
  }

  /** How many tokens come before pair `j`. */
  function TokensBefore(entries: Entries, j: nat): nat
    requires j <= Count(entries)
  {
    if j == 0 then 0 else NodesEntry(entries.e) + TokensBefore(entries.rest, j - 1)
  }

  /** The values that a search for `key` passes, `m` steps of the skip long, have no non-empty object in them. */
  predicate Passable(entries: Entries, key: string, m: nat) {
    forall i :: 0 <= i < FirstKey(entries, key) && 2 * i + 1 < m ==> NoPairs(Nth(entries, i).v)
  }

  /** Where the value of a pair at `off` is. */
  function ValueOffset(e: Entry, off: nat): nat
    requires e.Pair?
  {
    off + |Quoted(e.key)| + |e.colonBefore| + 1 + |e.colonAfter|
  }

  lemma EntryText(js: string, entries: Entries, first: bool, off: nat)
    requires entries.Entries? && At(js, off, RenderEntries(entries, first))
    ensures At(js, off + |Comma(first)| + |entries.before|, RenderEntry(entries.e))
    ensures At(js, RestOffset(entries, first, off), RenderEntries(entries.rest, false))
  {
    hide At;
    hide RenderEntries;
    hide RenderEntry;
    hide Comma;
    var Entries(before, e, after, rest) := entries;
    var q := off + |Comma(first)| + |before|;
    var tail := RenderEntries(rest, false);
    RenderFirst(entries, first);
    AtSplit(js, off, Comma(first), before + (RenderEntry(e) + (after + tail)));
    AtSplit(js, off + |Comma(first)|, before, RenderEntry(e) + (after + tail));
    AtSplit(js, q, RenderEntry(e), after + tail);
    AtSplit(js, q + |RenderEntry(e)|, after, tail);
  }

  lemma PairText(js: string, e: Entry, q: nat)
    requires e.Pair? && At(js, q, RenderEntry(e))
    ensures At(js, q + 1, e.key) && At(js, ValueOffset(e, q), Render(e.v))
  {
    hide At;
    hide Render;
    var p := q + |Quoted(e.key)|;
    AtSplit(js, q, Quoted(e.key), e.colonBefore + (":" + (e.colonAfter + Render(e.v))));
    AtSplit(js, p, e.colonBefore, ":" + (e.colonAfter + Render(e.v)));
    AtSplit(js, p + |e.colonBefore|, ":", e.colonAfter + Render(e.v));
    AtSplit(js, p + |e.colonBefore| + 1, e.colonAfter, Render(e.v));
    AtSplit(js, q, "\"", e.key + "\"");
    AtSplit(js, q + 1, e.key, "\"");
  }

  /** The first key is its own text, and the rest of the pairs is where the rest of the tokens says. */
  lemma FirstKeyText(js: string, entries: Entries, first: bool, off: nat)
    requires entries.Entries? && entries.e.Pair? && At(js, off, RenderEntries(entries, first))
    ensures var q := off + |Comma(first)| + |entries.before|;
            && At(js, q + 1, entries.e.key)
            && At(js, ValueOffset(entries.e, q), Render(entries.e.v))
    ensures At(js, RestOffset(entries, first, off), RenderEntries(entries.rest, false))
  {
    hide *;
    EntryText(js, entries, first, off);
    PairText(js, entries.e, off + |Comma(first)| + |entries.before|);
  }

  /** The first token of a pair is its key, and the value follows. */
  lemma KeyToken(js: string, toks: seq<Token>, i: nat, e: Entry, off: nat, key: string) returns (off': nat)
    requires e.Pair? && At(toks, i, FlatEntry(e, off)) && At(js, off + 1, e.key)
    ensures i + 1 < |toks| && At(toks, i + 1, Flat(e.v, off'))
    ensures toks[i].typ == String && (TokenIs(js, toks[i], key) <==> e.key == key)
    ensures End(toks, i) == i + 1
  {
    off' := FlatPair(toks, i, e, off);
    AtChar(toks, i, FlatEntry(e, off), 0);
    AtChar(toks, i + 1, Flat(e.v, off'), 0);
    assert js[off + 1..off + 1 + |e.key|] == e.key;
  }

  /** A walk over at least one value passes the first. */
  lemma WalkOn(toks: seq<Token>, i: nat, m: nat)
    requires i < |toks| && m > 0
    ensures Walk(toks, i, m) == Walk(toks, End(toks, i), m - 1) >= End(toks, i) > i
    ensures Walk(toks, End(toks, i), 0) == End(toks, i)
  {
  }

  /** One pair of the search. */
  lemma ScanPair(js: string, toks: seq<Token>, i: nat, end: nat, key: string)
    requires i < end && i + 1 < |toks|
    ensures Scan(js, toks, i, end, key) ==
              if TokenIs(js, toks[i], key) then i + 1
              else if i + 1 < end then Scan(js, toks, End(toks, i + 1), end, key)
              else -1
  {
  }

  lemma ScanNone(js: string, toks: seq<Token>, i: nat, key: string)
    ensures Scan(js, toks, i, Walk(toks, i, 0), key) == -1
  {
  }

  lemma PairFacts(e: Entry)
    requires ValidEntry(e, true)
    ensures e.Pair? && Valid(e.v) && NodesEntry(e) == 1 + Nodes(e.v)
  {
  }

  lemma IsKeyIs(e: Entry, key: string)
    requires e.Pair?
    ensures IsKey(e, key) <==> e.key == key
  {
  }

  /** The search at the first pair, as far as the walk goes. */
  lemma ScanFirst(
      js: string, toks: seq<Token>, i: nat, entries: Entries, first: bool, off: nat, m: nat, key: string)
    requires entries.Entries? && ValidEntry(entries.e, true) && m > 0
    requires !IsKey(entries.e, key) && m > 1 ==> NoPairs(entries.e.v)
    requires At(toks, i, FlatEntries(entries, first, off)) && At(js, off, RenderEntries(entries, first))
    ensures var next := i + NodesEntry(entries.e);
            Scan(js, toks, i, Walk(toks, i, m), key) ==
              if IsKey(entries.e, key) then i + 1
              else if m > 1 then Scan(js, toks, next, Walk(toks, next, m - 2), key)
              else -1
  {
    var e := entries.e;
    PairFacts(e);
    hide *;
    FirstKeyText(js, entries, first, off);
    FlatFirst(toks, i, entries, first, off);
    var off' := KeyToken(js, toks, i, e, off + |Comma(first)| + |entries.before|, key);
    IsKeyIs(e, key);
    ScanPair(js, toks, i, Walk(toks, i, m), key);
    WalkOn(toks, i, m);
    if !IsKey(e, key) && m > 1 {
      EndExact(toks, i + 1, e.v, off');
      WalkOn(toks, i + 1, m - 1);
    }
  }

  lemma {:induction false} ScanEntries(
      js: string, toks: seq<Token>, i: nat, entries: Entries, first: bool, off: nat, m: nat, key: string)
    requires ValidEntries(entries, true) && m <= Count(entries) && Passable(entries, key, m)
    requires At(toks, i, FlatEntries(entries, first, off)) && At(js, off, RenderEntries(entries, first))
    ensures var j := FirstKey(entries, key);
            Scan(js, toks, i, Walk(toks, i, m), key) == if 2 * j < m then i + TokensBefore(entries, j) + 1 else -1
    decreases entries
  {
    hide *;
    if m == 0 {
      ScanNone(js, toks, i, key);
    } else {
      FirstOf(entries, m);
      var e, rest := entries.e, entries.rest;
      if !IsKey(e, key) && m > 1 {
        PassFirst(entries, key, m);
        FirstKeyText(js, entries, first, off);
        FlatFirst(toks, i, entries, first, off);
        ScanEntries(js, toks, i + NodesEntry(e), rest, false, RestOffset(entries, first, off), m - 2, key);
      }
      ScanFirst(js, toks, i, entries, first, off, m, key);
      FirstKeyStep(entries, key);
    }
  }

  lemma FirstOf(entries: Entries, m: nat)
    requires ValidEntries(entries, true) && 0 < m <= Count(entries)
    ensures entries.Entries? && entries.e.Pair? && ValidEntry(entries.e, true) && ValidEntries(entries.rest, true)
  {
    hide Valid;
    assert ValidEntry(entries.e, true);
  }

  lemma FirstKeyStep(entries: Entries, key: string)
    requires entries.Entries?
    ensures IsKey(entries.e, key) ==> FirstKey(entries, key) == 0 && TokensBefore(entries, 0) == 0
    ensures !IsKey(entries.e, key) ==>
              var j := FirstKey(entries.rest, key);
              FirstKey(entries, key) == j + 1
              && TokensBefore(entries, j + 1) == NodesEntry(entries.e) + TokensBefore(entries.rest, j)
  {
  }

  lemma PassFirst(entries: Entries, key: string, m: nat)
    requires ValidEntries(entries, true) && 1 < m <= Count(entries) && Passable(entries, key, m)
    requires !IsKey(entries.e, key)
    ensures NoPairs(entries.e.v) && Passable(entries.rest, key, m - 2) && m - 2 <= Count(entries.rest)
  {
    assert Nth(entries, 0) == entries.e;
    forall i | 0 <= i < FirstKey(entries.rest, key) && 2 * i + 1 < m - 2
      ensures NoPairs(Nth(entries.rest, i).v)
    {
      assert Nth(entries, i + 1) == Nth(entries.rest, i);
    }
  }

  /**
    In the tokens of a document, a key of an object is found, at its value, exactly when it stands
    in the first half of the pairs; provided that the values passed on the way have no non-empty
    object in them. Where it is not found, nothing is.
   */
  lemma KeyFound(js: string, toks: seq<Token>, k: nat, ws: string, entries: Entries, off: nat, key: string)
    requires Valid(Obj(ws, entries)) && Passable(entries, key, Count(entries))
    requires At(toks, k, Flat(Obj(ws, entries), off)) && At(js, off, Render(Obj(ws, entries)))
    ensures var j := FirstKey(entries, key);
            FindIn(js, toks, k, key) == if 2 * j < Count(entries) then k + 1 + TokensBefore(entries, j) + 1 else -1
  {
    var v := Obj(ws, entries);
    FlatContainer(toks, k, v, off);
    AtChar(toks, k, Flat(v, off), 0);
    ObjectText(js, off, ws, entries);
    hide Passable;
    hide At;
    ScanEntries(js, toks, k + 1, entries, true, off + 1 + |ws|, Count(entries), key);
  }

  /** In anything but an object nothing is found. */
  lemma NoObjectNoKey(js: string, toks: seq<Token>, k: nat, v: Value, off: nat, key: string)
    requires At(toks, k, Flat(v, off)) && !v.Obj?
    ensures FindIn(js, toks, k, key) == -1
  {
    AtChar(toks, k, Flat(v, off), 0);
    hide Scan;
    hide End;
  }

  lemma ObjectText(js: string, off: nat, ws: string, entries: Entries)
    requires At(js, off, Render(Obj(ws, entries)))
    ensures At(js, off + 1 + |ws|, RenderEntries(entries, true))
  {
    hide At;
    hide RenderEntries;
    AtSplit(js, off, "{", ws + (RenderEntries(entries, true) + "}"));
    AtSplit(js, off + 1, ws, RenderEntries(entries, true) + "}");
    AtSplit(js, off + 1 + |ws|, RenderEntries(entries, true), "}");
  }

  /** An object of two pairs whose values are primitives. */
  function TwoKeys(a: string, va: string, b: string, vb: string): Value {
    Obj("", Entries("", Pair(a, "", "", Prim(va)), "", Entries("", Pair(b, "", "", Prim(vb)), "", NoEntries)))
  }

  /** Of two keys the second is never found, whatever they are. */
  lemma SecondKeyMissed(a: string, va: string, b: string, vb: string)
    requires StringBody(a) && StringBody(b) && PrimText(va) && PrimText(vb) && a != b
    ensures var v := TwoKeys(a, va, b, vb);
            Valid(v) && FindIn(Render(v), Flat(v, 0), 0, b) == -1 && FindIn(Render(v), Flat(v, 0), 0, a) == 2
  {
    var v := TwoKeys(a, va, b, vb);
    var second := v.entries.rest;
    hide Render;
    hide PrimText;
    hide StringBody;
    assert Valid(Prim(va)) && Valid(Prim(vb));
    assert ValidEntry(second.e, true) && ValidEntries(NoEntries, true) && ValidEntries(second, true);
    assert ValidEntry(v.entries.e, true);
    assert Count(second) == 1;
    assert Count(v.entries) == 2;
    assert FirstKey(second, b) == 0 && FirstKey(v.entries, b) == 1 && FirstKey(v.entries, a) == 0;
    assert Nth(v.entries, 0) == v.entries.e;
    assert Passable(v.entries, a, 2) && Passable(v.entries, b, 2);
    WholeAt(Render(v));
    WholeAt(Flat(v, 0));
    hide FindIn;
    hide Flat;
    KeyFound(Render(v), Flat(v, 0), 0, "", v.entries, 0, b);
    KeyFound(Render(v), Flat(v, 0), 0, "", v.entries, 0, a);
  }

  lemma WholeAt<T>(s: seq<T>)
    ensures At(s, 0, s)
  {
  }

  /** The value of the first pair of the object below, and its other pairs. */
  const Nested := Obj("", Entries("", Pair("x", "", "", Str("b")), "", NoEntries))
  const Others := Entries("", Pair("b", "", "", Prim("2")), "", Entries("", Pair("c", "", "", Prim("3")), "", NoEntries))
  const Confusing := Obj("", Entries("", Pair("a", "", "", Nested), "", Others))

  lemma ConfusingTokens()
    ensures var toks := Flat(Confusing, 0);
            && |toks| == 9 && toks[0].typ == Object && toks[0].size == 3
            && toks[1] == Token(String, 2, 3, 1) && toks[2].typ == Object && toks[2].size == 1
            && toks[3] == Token(String, 7, 8, 1) && toks[4] == Token(String, 11, 12, 0)
  {
    hide Render;
    var inner := Nested.entries;
    assert Count(inner) == 1 && Count(Others.rest) == 1 && Count(Others) == 2;
    assert FlatEntry(inner.e, 6) == [Token(String, 7, 8, 1), Token(String, 11, 12, 0)];
    assert FlatEntries(inner, true, 6) == FlatEntry(inner.e, 6);
    assert Flat(Nested, 5)[1..] == FlatEntries(inner, true, 6);
    var e := Confusing.entries.e;
    assert FlatEntry(e, 1) == [Token(String, 2, 3, 1)] + Flat(Nested, 5);
    assert NodesEntries(Others.rest) == 2 && NodesEntries(Others) == 4;
    assert Flat(Confusing, 0)[1..][..4] == FlatEntry(e, 1);
    var toks := Flat(Confusing, 0);
    assert toks[1] == toks[1..][..4][0] && toks[2] == toks[1..][..4][1];
    assert toks[3] == toks[1..][..4][2] && toks[4] == toks[1..][..4][3];
  }

  lemma ConfusingText()
    ensures var js := Render(Confusing);
            At(js, 2, "a") && At(js, 11, "b")
  {
    hide At;
    hide Render;
    hide RenderEntry;
    hide RenderEntries;
    hide Comma;
    hide ValueOffset;
    var js := Render(Confusing);
    ConfusingOffsets();
    WholeAt(js);
    ObjectText(js, 0, "", Confusing.entries);
    FirstKeyText(js, Confusing.entries, true, 1);
    ObjectText(js, 5, "", Nested.entries);
    FirstKeyText(js, Nested.entries, true, 6);
    AtSplit(js, 10, "\"", "b" + "\"");
    AtSplit(js, 11, "b", "\"");
  }

  lemma ConfusingOffsets()
    ensures |Comma(true)| == 0 && Render(Str("b")) == "\"" + ("b" + "\"")
    ensures ValueOffset(Confusing.entries.e, 1) == 5 && ValueOffset(Nested.entries.e, 6) == 10
  {
  }

  lemma ConfusingEnds(toks: seq<Token>)
    requires |toks| == 9 && toks[0].typ == Object && toks[0].size == 3
    requires toks[1].typ == String && toks[2].typ == Object && toks[2].size == 1
    requires toks[3].typ == String && toks[4].typ == String
    ensures End(toks, 0) == 5 && End(toks, 2) == 4
  {
    assert End(toks, 1) == 2 && End(toks, 3) == 4 && End(toks, 4) == 5;
    assert Walk(toks, 4, 0) == 4 && Walk(toks, 5, 0) == 5;
    assert Walk(toks, 3, 1) == 4;
    assert End(toks, 2) == 4;
    assert Walk(toks, 4, 1) == 5;
    assert Walk(toks, 2, 2) == 5;
    assert Walk(toks, 1, 3) == 5;
  }

  /** A text inside the first value is taken for a key: the search answers with the token after it, which is no value of that object. */
  lemma WrongKeyFound()
    ensures FindIn(Render(Confusing), Flat(Confusing, 0), 0, "b") == 5
    ensures FirstKey(Confusing.entries, "b") == 1 && TokensBefore(Confusing.entries, 1) == 4
  {
    var js, toks := Render(Confusing), Flat(Confusing, 0);
    assert FirstKey(Confusing.entries, "b") == 1 && TokensBefore(Confusing.entries, 1) == 4 by {
      assert TokensBefore(Confusing.entries.rest, 0) == 0;
      assert NodesEntry(Confusing.entries.e) == 4;
    }
    ConfusingTokens();
    ConfusingText();
    hide Render;
    hide Flat;
    hide FirstKey;
    hide TokensBefore;
    ConfusingEnds(toks);
    hide End;
    AtChar(js, 2, "a", 0);
    assert TokenIs(js, toks[4], "b");
    assert !TokenIs(js, toks[1], "b") by {
      assert js[2..3][0] == 'a';
    }
    hide TokenIs;
    ScanPair(js, toks, 1, 5, "b");
    ScanPair(js, toks, 4, 5, "b");
  }
}
