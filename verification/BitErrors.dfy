/** The bit-error tolerant matcher and corrector of bootstat/bootstat.cpp. */
module BitErrors {
  import opened Options

  type Octet = bv8

  function Bit(x: Octet, mask: Octet): nat {
    if x & mask == 0 then 0 else 1
  }

  /** bitset<8>(x).count() */
  function BitCount(x: Octet): nat {
    Bit(x, 1) + Bit(x, 2) + Bit(x, 4) + Bit(x, 8) + Bit(x, 16) + Bit(x, 32) + Bit(x, 64) + Bit(x, 128)
  }

  predicate SingleBit(m: Octet) {
    m == 1 || m == 2 || m == 4 || m == 8 || m == 16 || m == 32 || m == 64 || m == 128
  }

  /** What a count of bits is: none in zero, and one more for each bit that is set. */
  lemma CountsBits(x: Octet, m: Octet)
    requires SingleBit(m) && x & m == 0
    ensures BitCount(0) == 0 && BitCount(x | m) == BitCount(x) + 1
  {
  }

  /** Number of bits that differ. */
  function NumError(l: Octet, r: Octet): nat {
    BitCount(l ^ r)
  }

  /** One more bit that differs is one more error. */
  lemma FlippedBit(l: Octet, r: Octet, m: Octet)
    requires SingleBit(m) && l & m == r & m
    ensures NumError(l ^ m, r) == NumError(l, r) + 1
  {
    assert (l ^ r) & m == 0 && (l ^ m) ^ r == (l ^ r) | m;
    CountsBits(l ^ r, m);
  }

  lemma NoErrorIffEqual(l: Octet, r: Octet)
    ensures NumError(l, r) == 0 <==> l == r
  {
    if NumError(l, r) == 0 {
      var x := l ^ r;
      assert x & 1 == 0 && x & 2 == 0 && x & 4 == 0 && x & 8 == 0 && x & 16 == 0 && x & 32 == 0 && x & 64 == 0 && x & 128 == 0;
      assert x == 0;
    }
  }

  const BIT_ERROR_RATE := 8

  /** How many wrong bits the last n bytes may have. */
  function Bound(n: nat): nat {
    (n * 8 + BIT_ERROR_RATE - (if n > 2 then 1 else 0)) / BIT_ERROR_RATE
  }

  function Limit(n: nat): nat {
    if n <= 2 then n + 1 else n
  }

  lemma BoundTable(n: nat)
    ensures Bound(n) == Limit(n)
  {
  }

  /** The wrong bits of each byte of the window at pos. */
  function Errors(s: seq<Octet>, pos: nat, needle: seq<Octet>): (es: seq<nat>)
    requires pos + |needle| <= |s|
    ensures |es| == |needle|
  {
    seq(|needle|, k requires 0 <= k < |needle| => NumError(s[pos + k], needle[k]))
  }

  function SuffixSum(es: seq<nat>, n: nat): nat
    requires n <= |es|
  {
    if n == 0 then 0 else es[|es| - n] + SuffixSum(es, n - 1)
  }

  function Total(es: seq<nat>): nat {
    if es == [] then 0 else es[0] + Total(es[1..])
  }

  lemma {:induction false} SuffixSumIs(es: seq<nat>, n: nat)
    requires n <= |es|
    ensures SuffixSum(es, n) == Total(es[|es| - n..])
  {
    if n > 0 {
      SuffixSumIs(es, n - 1);
      assert es[|es| - n..][1..] == es[|es| - (n - 1)..];
    }
  }

  /** Of the last n bytes none has more than two wrong bits, and no suffix more than its bound. */
  predicate Within(es: seq<nat>, n: nat)
    requires n <= |es|
  {
    n == 0 || (es[|es| - n] <= 2 && SuffixSum(es, n) <= Bound(n) && Within(es, n - 1))
  }

  lemma {:induction false} WithinMeans(es: seq<nat>, n: nat)
    requires n <= |es|
    ensures Within(es, n) <==>
      && (forall k :: |es| - n <= k < |es| ==> es[k] <= 2)
      && (forall m :: 0 < m <= n ==> Total(es[|es| - m..]) <= Limit(m))
  {
    forall m | 0 < m <= n
      ensures SuffixSum(es, m) == Total(es[|es| - m..])
    {
      SuffixSumIs(es, m);
    }
    if n > 0 {
      WithinMeans(es, n - 1);
      BoundTable(n);
      assert (forall k :: |es| - n <= k < |es| ==> es[k] <= 2) <==>
        es[|es| - n] <= 2 && forall k :: |es| - (n - 1) <= k < |es| ==> es[k] <= 2;
      assert (forall m :: 0 < m <= n ==> SuffixSum(es, m) <= Limit(m)) <==>
        SuffixSum(es, n) <= Limit(n) && forall m :: 0 < m <= n - 1 ==> SuffixSum(es, m) <= Limit(m);
    }
  }

  lemma {:induction false} WithinLess(es: seq<nat>, m: nat, n: nat)
    requires m <= n <= |es| && Within(es, n)
    ensures Within(es, m)
  {
    if m < n {
      WithinLess(es, m, n - 1);
    }
  }

  /** The window at pos matches. */
  predicate Tolerated(s: seq<Octet>, pos: nat, needle: seq<Octet>) {
    pos + |needle| <= |s| && Within(Errors(s, pos, needle), |needle|)
  }

  /** numError(pos, needle): from the end of the window to its beginning, giving up (None) at the
      first byte or suffix with too many wrong bits. */
  method CountErrors(s: seq<Octet>, pos: nat, needle: seq<Octet>) returns (count: Option<nat>)
    requires needle != [] && pos + |needle| <= |s|
    ensures count.Some? <==> Tolerated(s, pos, needle)
    ensures count.Some? ==> count.value == Total(Errors(s, pos, needle))
  {
    ghost var es := Errors(s, pos, needle);
    SuffixSumIs(es, |es|);
    assert es[0..] == es;
    var total: nat := 0;
    var n: nat := 0;
    while true
      invariant n < |needle| && total == SuffixSum(es, n) && Within(es, n)
      decreases |needle| - n
    {
      var num := NumError(s[pos + |needle| - (n + 1)], needle[|needle| - (n + 1)]);
      assert num == es[|es| - (n + 1)];
      if num > (8 + BIT_ERROR_RATE) / BIT_ERROR_RATE {
        NotWithin(es, n + 1);
        return None;
      }
      total := total + num;
      n := n + 1;
      if total > Bound(n) {
        NotWithin(es, n);
        return None;
      }
      if n == |needle| {
        return Some(total);
      }
    }
  }

  lemma NotWithin(es: seq<nat>, n: nat)
    requires n <= |es| && !Within(es, n)
    ensures !Within(es, |es|)
  {
    if Within(es, |es|) {
      WithinLess(es, n, |es|);
    }
  }

  predicate Exact(s: seq<Octet>, pos: nat, needle: seq<Octet>) {
    pos + |needle| <= |s| && s[pos..pos + |needle|] == needle
  }

  lemma {:induction false} NoErrors(es: seq<nat>, n: nat)
    requires n <= |es| && forall k :: 0 <= k < |es| ==> es[k] == 0
    ensures SuffixSum(es, n) == 0 && Within(es, n)
  {
    if n > 0 {
      NoErrors(es, n - 1);
    }
  }

  lemma ExactIsTolerated(s: seq<Octet>, pos: nat, needle: seq<Octet>)
    requires Exact(s, pos, needle)
    ensures Tolerated(s, pos, needle)
  {
    var es := Errors(s, pos, needle);
    forall k | 0 <= k < |es|
      ensures es[k] == 0
    {
      assert s[pos + k] == s[pos..pos + |needle|][k];
      NoErrorIffEqual(s[pos + k], needle[k]);
    }
    NoErrors(es, |es|);
  }

  /** find: the first match at or after `start`. */
  method Find(s: seq<Octet>, needle: seq<Octet>, start: nat) returns (pos: Option<nat>)
    requires needle != []
    ensures pos.Some? ==> pos.value >= start && Tolerated(s, pos.value, needle)
    ensures forall p: nat :: start <= p && (pos.Some? ==> p < pos.value) ==> !Tolerated(s, p, needle)
  {
    if |needle| > |s| {
      return None;
    }
    var last := |s| - |needle|;
    var p := start;
    while p <= last
      invariant start <= p
      invariant forall q: nat :: start <= q < p ==> !Tolerated(s, q, needle)
    {
      var count := CountErrors(s, p, needle);
      if count.Some? {
        return Some(p);
      }
      p := p + 1;
    }
    return None;
  }

  /** std::string::rfind: the last exact match. */
  method ExactRFind(s: seq<Octet>, needle: seq<Octet>) returns (pos: Option<nat>)
    ensures pos.Some? ==> Exact(s, pos.value, needle) && forall p: nat :: p > pos.value ==> !Exact(s, p, needle)
    ensures pos.None? ==> forall p: nat :: !Exact(s, p, needle)
  {
    if |needle| > |s| {
      return None;
    }
    var p := |s| - |needle| + 1;
    while p > 0
      invariant 0 <= p <= |s| - |needle| + 1
      invariant forall q: nat :: p <= q ==> !Exact(s, q, needle)
    {
      p := p - 1;
      if s[p..p + |needle|] == needle {
        return Some(p);
      }
    }
    return None;
  }

  /** rfind: the last exact match if there is one, else the last match. */
  method RFind(s: seq<Octet>, needle: seq<Octet>) returns (pos: Option<nat>)
    requires needle != []
    ensures pos.Some? ==> Tolerated(s, pos.value, needle)
    ensures pos.None? ==> forall p: nat :: !Tolerated(s, p, needle)
    ensures (exists p: nat :: Exact(s, p, needle)) ==>
      pos.Some? && Exact(s, pos.value, needle) && forall p: nat :: p > pos.value ==> !Exact(s, p, needle)
    ensures !(exists p: nat :: Exact(s, p, needle)) && pos.Some? ==>
      forall p: nat :: p > pos.value ==> !Tolerated(s, p, needle)
  {
    pos := ExactRFind(s, needle);
    if pos.Some? {
      ExactIsTolerated(s, pos.value, needle);
      return;
    }
    if |needle| > |s| {
      return None;
    }
    var p := |s| - |needle|;
    while true
      invariant 0 <= p <= |s| - |needle|
      invariant forall q: nat :: p < q ==> !Tolerated(s, q, needle)
      decreases p
    {
      var count := CountErrors(s, p, needle);
      if count.Some? {
        return Some(p);
      }
      if p == 0 {
        break;
      }
      p := p - 1;
    }
    return None;
  }

  // Correction.

  function Replace(s: seq<Octet>, pos: nat, needle: seq<Octet>): (r: seq<Octet>)
    requires pos + |needle| <= |s|
    ensures |r| == |s|
  {
    s[..pos] + needle + s[pos + |needle|..]
  }

  /** At which positions there is a match. */
  function Hits(s: seq<Octet>, needle: seq<Octet>): (hits: seq<bool>)
    ensures |hits| == |s|
  {
    seq(|s|, p requires 0 <= p < |s| => Tolerated(s, p, needle))
  }

  /** The matches from pos on, leftmost first, none overlapping another. */
  function Windows(hits: seq<bool>, width: nat, pos: nat): seq<nat>
    requires width > 0
    decreases |hits| - pos
  {
    if pos >= |hits| then []
    else if hits[pos] then [pos] + Windows(hits, width, pos + width)
    else Windows(hits, width, pos + 1)
  }

  predicate Fits(hits: seq<bool>, width: nat) {
    forall p :: 0 <= p < |hits| && hits[p] ==> p + width <= |hits|
  }

  /** Windows of the given width, in order, not overlapping, at or after pos and within the string. */
  ghost predicate Spaced(ws: seq<nat>, width: nat, pos: nat, length: nat) {
    && (forall i :: 0 <= i < |ws| ==> pos <= ws[i] && ws[i] + width <= length)
    && (forall i, j :: 0 <= i < j < |ws| ==> ws[i] + width <= ws[j])
  }

  ghost predicate Covers(ws: seq<nat>, width: nat, p: nat) {
    exists i :: 0 <= i < |ws| && ws[i] <= p < ws[i] + width
  }

  /** The windows are matches, and every match begins in one of them. */
  ghost predicate Greedy(hits: seq<bool>, width: nat, pos: nat, ws: seq<nat>) {
    && Spaced(ws, width, pos, |hits|)
    && (width > 0 ==> forall i :: 0 <= i < |ws| ==> hits[ws[i]])
    && (forall p :: pos <= p < |hits| && hits[p] ==> Covers(ws, width, p))
  }

  lemma GreedyCons(hits: seq<bool>, width: nat, pos: nat, rest: seq<nat>)
    requires width > 0 && pos + width <= |hits| && hits[pos] && Greedy(hits, width, pos + width, rest)
    ensures Greedy(hits, width, pos, [pos] + rest)
  {
    SpacedCons(pos, rest, width, |hits|);
    forall p | pos <= p < |hits| && hits[p]
      ensures Covers([pos] + rest, width, p)
    {
      CoversCons(pos, rest, width, p);
    }
  }

  lemma {:induction false} WindowsGreedy(hits: seq<bool>, width: nat, pos: nat)
    requires width > 0 && Fits(hits, width)
    ensures Greedy(hits, width, pos, Windows(hits, width, pos))
    decreases |hits| - pos
  {
    if pos < |hits| {
      if hits[pos] {
        WindowsGreedy(hits, width, pos + width);
        GreedyCons(hits, width, pos, Windows(hits, width, pos + width));
      } else {
        WindowsGreedy(hits, width, pos + 1);
      }
    }
  }

  lemma SpacedCons(w: nat, rest: seq<nat>, width: nat, length: nat)
    requires w + width <= length && Spaced(rest, width, w + width, length)
    ensures Spaced([w] + rest, width, w, length)
  {
  }

  lemma CoversCons(w: nat, rest: seq<nat>, width: nat, p: nat)
    ensures Covers([w] + rest, width, p) <==> w <= p < w + width || Covers(rest, width, p)
  {
    var ws := [w] + rest;
    if Covers(rest, width, p) {
      var i :| 0 <= i < |rest| && rest[i] <= p < rest[i] + width;
      assert ws[i + 1] == rest[i];
    }
    if w <= p < w + width {
      assert ws[0] <= p < ws[0] + width;
    }
  }

  /** The symbol at p once the needle is written into every window. */
  function SymbolAt(s: seq<Octet>, needle: seq<Octet>, ws: seq<nat>, p: nat): Octet
    requires p < |s|
  {
    if ws == [] then s[p]
    else if ws[0] <= p < ws[0] + |needle| then needle[p - ws[0]]
    else SymbolAt(s, needle, ws[1..], p)
  }

  function Overlay(s: seq<Octet>, needle: seq<Octet>, ws: seq<nat>): (r: seq<Octet>)
    ensures |r| == |s|
  {
    seq(|s|, p requires 0 <= p < |s| => SymbolAt(s, needle, ws, p))
  }

  lemma {:induction false} SymbolOutside(s: seq<Octet>, needle: seq<Octet>, ws: seq<nat>, p: nat)
    requires p < |s| && !Covers(ws, |needle|, p)
    ensures SymbolAt(s, needle, ws, p) == s[p]
  {
    if ws == [] {
    } else {
      assert ws == [ws[0]] + ws[1..];
      CoversCons(ws[0], ws[1..], |needle|, p);
      SymbolOutside(s, needle, ws[1..], p);
    }
  }

  lemma {:induction false} SymbolInside(s: seq<Octet>, needle: seq<Octet>, ws: seq<nat>, pos: nat, i: nat, k: nat)
    requires Spaced(ws, |needle|, pos, |s|) && i < |ws| && k < |needle|
    ensures SymbolAt(s, needle, ws, ws[i] + k) == needle[k]
  {
    if i > 0 {
      assert ws[0] + |needle| <= ws[i];
      SymbolInside(s, needle, ws[1..], pos, i - 1, k);
    }
  }

  lemma {:induction false} SymbolAppend(s: seq<Octet>, needle: seq<Octet>, ws: seq<nat>, w: nat, p: nat)
    requires p < |s| && forall i :: 0 <= i < |ws| ==> ws[i] + |needle| <= w
    ensures SymbolAt(s, needle, ws + [w], p) ==
      if w <= p < w + |needle| then needle[p - w] else SymbolAt(s, needle, ws, p)
  {
    if ws == [] {
    } else {
      assert ws[0] + |needle| <= w;
      assert (ws + [w])[1..] == ws[1..] + [w];
      SymbolAppend(s, needle, ws[1..], w, p);
    }
  }

  lemma OverlayAppend(s: seq<Octet>, needle: seq<Octet>, ws: seq<nat>, w: nat)
    requires w + |needle| <= |s| && forall i :: 0 <= i < |ws| ==> ws[i] + |needle| <= w
    ensures Overlay(s, needle, ws + [w]) == Replace(Overlay(s, needle, ws), w, needle)
  {
    var r := Replace(Overlay(s, needle, ws), w, needle);
    forall p | 0 <= p < |s|
      ensures Overlay(s, needle, ws + [w])[p] == r[p]
    {
      SymbolAppend(s, needle, ws, w, p);
    }
  }

  lemma {:induction false} WindowsSkip(hits: seq<bool>, width: nat, pos: nat, found: nat)
    requires width > 0 && pos <= found <= |hits|
    requires forall p :: pos <= p < found ==> !hits[p]
    ensures Windows(hits, width, pos) == Windows(hits, width, found)
    decreases found - pos
  {
    if pos < found {
      WindowsSkip(hits, width, pos + 1, found);
    }
  }

  /** Matching looks only at the window. */
  lemma SameWindow(s: seq<Octet>, t: seq<Octet>, p: nat, needle: seq<Octet>)
    requires |s| == |t|
    requires forall k :: p <= k < |s| ==> s[k] == t[k]
    ensures Tolerated(s, p, needle) <==> Tolerated(t, p, needle)
  {
    if p + |needle| <= |s| {
      assert Errors(s, p, needle) == Errors(t, p, needle);
    }
  }

  lemma SameHits(s: seq<Octet>, t: seq<Octet>, needle: seq<Octet>, pos: nat)
    requires |s| == |t| && forall k :: pos <= k < |s| ==> s[k] == t[k]
    ensures forall p :: pos <= p < |s| ==> Hits(s, needle)[p] == Hits(t, needle)[p]
  {
    forall p | pos <= p < |s|
      ensures Hits(s, needle)[p] == Hits(t, needle)[p]
    {
      SameWindow(s, t, p, needle);
    }
  }

  lemma HitsFit(s: seq<Octet>, needle: seq<Octet>)
    ensures Fits(Hits(s, needle), |needle|)
  {
  }

  /** The first match at or after pos, in terms of the hits. */
  method FindHit(s: seq<Octet>, needle: seq<Octet>, pos: nat) returns (found: Option<nat>)
    requires needle != [] && pos <= |s|
    ensures found.Some? ==> pos <= found.value && found.value + |needle| <= |s| && Hits(s, needle)[found.value]
    ensures var end := if found.Some? then found.value else |s|;
            forall p :: pos <= p < end ==> !Hits(s, needle)[p]
  {
    found := Find(s, needle, pos);
  }

  /** The state of the correction at pos: the windows in `done` are dealt with. */
  ghost predicate Progress(original: seq<Octet>, needle: seq<Octet>, hits: seq<bool>, reason: seq<Octet>, done: seq<nat>, pos: nat)
    requires needle != []
  {
    && |hits| == |original|
    && reason == Overlay(original, needle, done)
    && Windows(hits, |needle|, 0) == done + Windows(hits, |needle|, pos)
    && (forall i :: 0 <= i < |done| ==> done[i] + |needle| <= pos)
    && (forall k :: pos <= k < |reason| ==> reason[k] == original[k])
  }

  lemma ProgressStep(original: seq<Octet>, needle: seq<Octet>, hits: seq<bool>, reason: seq<Octet>, done: seq<nat>, pos: nat, found: nat)
    requires needle != [] && Progress(original, needle, hits, reason, done, pos)
    requires pos <= found && found + |needle| <= |original| && hits[found]
    requires forall p :: pos <= p < found ==> !hits[p]
    ensures Progress(original, needle, hits, Replace(reason, found, needle), done + [found], found + |needle|)
  {
    WindowsSkip(hits, |needle|, pos, found);
    OverlayAppend(original, needle, done, found);
    var rest := Windows(hits, |needle|, found + |needle|);
    assert done + ([found] + rest) == (done + [found]) + rest;
  }

  lemma ProgressDone(original: seq<Octet>, needle: seq<Octet>, hits: seq<bool>, reason: seq<Octet>, done: seq<nat>, pos: nat)
    requires needle != [] && Progress(original, needle, hits, reason, done, pos)
    requires forall p :: pos <= p < |hits| ==> !hits[p]
    ensures reason == Overlay(original, needle, Windows(hits, |needle|, 0))
  {
    if pos <= |hits| {
      WindowsSkip(hits, |needle|, pos, |hits|);
    }
    assert done + [] == done;
  }

  lemma StillDiffers(reason: seq<Octet>, original: seq<Octet>, pos: nat, needle: seq<Octet>)
    requires |reason| == |original| && pos + |needle| <= |reason|
    requires forall k :: pos <= k < |reason| ==> reason[k] == original[k]
    ensures Replace(reason, pos, needle) == original <==> reason == original && reason[pos..pos + |needle|] == needle
  {
    var r := Replace(reason, pos, needle);
    assert r[pos..pos + |needle|] == needle;
    assert original[pos..pos + |needle|] == reason[pos..pos + |needle|];
    if r == original {
      assert forall k :: 0 <= k < pos ==> reason[k] == r[k];
      assert reason == original;
    }
  }

  /** What the correction makes of a string. */
  ghost function Corrected(s: seq<Octet>, needle: seq<Octet>): seq<Octet>
    requires needle != []
  {
    Overlay(s, needle, Windows(Hits(s, needle), |needle|, 0))
  }

  /** Puts the needle where a match was found, unless it is there exactly. */
  method CorrectAt(ghost original: seq<Octet>, needle: seq<Octet>, ghost hits: seq<bool>, reason: seq<Octet>, ghost done: seq<nat>, ghost pos: nat, found: nat)
    returns (changed: bool, better: seq<Octet>, ghost more: seq<nat>)
    requires needle != [] && Progress(original, needle, hits, reason, done, pos)
    requires pos <= found && found + |needle| <= |reason| && hits[found] && forall p :: pos <= p < found ==> !hits[p]
    ensures |better| == |reason| && Progress(original, needle, hits, better, more, found + |needle|)
    ensures better == original <==> reason == original && !changed
  {
    more := done + [found];
    ProgressStep(original, needle, hits, reason, done, pos, found);
    StillDiffers(reason, original, found, needle);
    if reason[found..found + |needle|] == needle {
      assert Replace(reason, found, needle) == reason;
      return false, reason, more;
    }
    return true, reason[..found] + needle + reason[found + |needle|..], more;
  }

  /** The search in the string as corrected so far finds what it would find in the original. */
  method FindNext(ghost original: seq<Octet>, needle: seq<Octet>, ghost hits: seq<bool>, reason: seq<Octet>, pos: nat) returns (found: Option<nat>)
    requires needle != [] && hits == Hits(original, needle) && |reason| == |original|
    requires pos + |needle| <= |reason| && forall k :: pos <= k < |reason| ==> reason[k] == original[k]
    ensures found.Some? ==> pos <= found.value && found.value + |needle| <= |reason| && hits[found.value]
    ensures var end := if found.Some? then found.value else |hits|;
            forall p :: pos <= p < end ==> !hits[p]
  {
    SameHits(reason, original, needle, pos);
    found := FindHit(reason, needle, pos);
  }

  /** One turn of the loop of correctForBitError, after the search. */
  method CorrectNext(ghost original: seq<Octet>, needle: seq<Octet>, ghost hits: seq<bool>, reason: seq<Octet>, ghost done: seq<nat>, pos: nat, hit: Option<nat>)
    returns (found: bool, changed: bool, better: seq<Octet>, ghost more: seq<nat>, next: nat)
    requires needle != [] && |reason| == |original| && Progress(original, needle, hits, reason, done, pos)
    requires hit.Some? ==> pos <= hit.value && hit.value + |needle| <= |reason| && hits[hit.value]
    requires var end := if hit.Some? then hit.value else |hits|;
             forall p :: pos <= p < end ==> !hits[p]
    ensures |better| == |original| && next >= pos && Progress(original, needle, hits, better, more, next)
    ensures found ==> next > pos && (better == original <==> reason == original && !changed)
    ensures !found ==> !changed && better == reason && forall p :: next <= p < |hits| ==> !hits[p]
  {
    if hit.None? {
      return false, false, reason, done, pos;
    }
    found, next := true, hit.value + |needle|;
    changed, better, more := CorrectAt(original, needle, hits, reason, done, pos, hit.value);
  }

  /** correctForBitError: from left to right, every match that is not exact is overwritten with the
      needle. Says whether it changed anything. */
  method CorrectForBitError(original: seq<Octet>, needle: seq<Octet>) returns (corrected: bool, reason: seq<Octet>)
    requires needle != []
    ensures reason == Corrected(original, needle)
    ensures corrected <==> reason != original
  {
    corrected, reason := false, original;
    ghost var done: seq<nat>, hits := [], Hits(original, needle);
    assert Overlay(original, needle, []) == original;
    HitsFit(original, needle);
    var pos: nat := 0;
    if |reason| >= |needle| {
      var last := |reason| - |needle|;
      var found := true;
      while pos <= last && found
        invariant |reason| == |original| && Progress(original, needle, hits, reason, done, pos)
        invariant corrected <==> reason != original
        invariant !found ==> forall p :: pos <= p < |hits| ==> !hits[p]
        decreases found, |original| - pos
      {
        var changed;
        var hit := FindNext(original, needle, hits, reason, pos);
        found, changed, reason, done, pos := CorrectNext(original, needle, hits, reason, done, pos, hit);
        corrected := corrected || changed;
      }
    }
    ProgressDone(original, needle, hits, reason, done, pos);
  }

  /** What the correction does, without the code: the result has the needle in every window, and the
      old bytes elsewhere; windows do not overlap and were matches, and every match of the original
      begins in a window. */
  lemma CorrectionMeans(s: seq<Octet>, needle: seq<Octet>) returns (ws: seq<nat>)
    requires needle != []
    ensures Spaced(ws, |needle|, 0, |s|)
    ensures forall i :: 0 <= i < |ws| ==> Tolerated(s, ws[i], needle) && Exact(Corrected(s, needle), ws[i], needle)
    ensures forall p :: 0 <= p < |s| && !Covers(ws, |needle|, p) ==> Corrected(s, needle)[p] == s[p]
    ensures forall p: nat :: p < |s| && Tolerated(s, p, needle) ==> Covers(ws, |needle|, p)
  {
    var hits, r := Hits(s, needle), Corrected(s, needle);
    ws := Windows(hits, |needle|, 0);
    HitsFit(s, needle);
    WindowsGreedy(hits, |needle|, 0);
    forall i | 0 <= i < |ws|
      ensures Tolerated(s, ws[i], needle) && Exact(r, ws[i], needle)
    {
      WindowHoldsNeedle(s, needle, ws, i);
    }
    forall p | 0 <= p < |s| && !Covers(ws, |needle|, p)
      ensures r[p] == s[p]
    {
      SymbolOutside(s, needle, ws, p);
    }
    forall p: nat | p < |s| && Tolerated(s, p, needle)
      ensures Covers(ws, |needle|, p)
    {
      assert hits[p];
    }
  }

  lemma WindowHoldsNeedle(s: seq<Octet>, needle: seq<Octet>, ws: seq<nat>, i: nat)
    requires Spaced(ws, |needle|, 0, |s|) && i < |ws|
    ensures Exact(Overlay(s, needle, ws), ws[i], needle)
  {
    var r := Overlay(s, needle, ws);
    forall k | 0 <= k < |needle|
      ensures r[ws[i]..ws[i] + |needle|][k] == needle[k]
    {
      SymbolInside(s, needle, ws, 0, i, k);
    }
  }

  /** The needle fits onto itself when it is moved by d. */
  predicate SelfOverlaps(needle: seq<Octet>, d: nat) {
    d >= |needle| || needle[d..] == needle[..|needle| - d]
  }

  function Distance(a: nat, b: nat): nat {
    if a <= b then b - a else a - b
  }

  ghost predicate AllOverlap(needle: seq<Octet>, ws: seq<nat>, p: nat) {
    forall i :: 0 <= i < |ws| ==> SelfOverlaps(needle, Distance(ws[i], p))
  }

  /** One byte of an exact match that a window covers. */
  lemma CoveredByte(s: seq<Octet>, needle: seq<Octet>, ws: seq<nat>, p: nat, i: nat, k: nat)
    requires Spaced(ws, |needle|, 0, |s|) && i < |ws| && k < |needle| && ws[i] <= p + k < ws[i] + |needle|
    requires p + |needle| <= |s| && SelfOverlaps(needle, Distance(ws[i], p))
    ensures Overlay(s, needle, ws)[p + k] == needle[k]
  {
    var w, d := ws[i], Distance(ws[i], p);
    SymbolInside(s, needle, ws, 0, i, p + k - w);
    if w <= p {
      assert needle[d..][k] == needle[..|needle| - d][k];
    } else {
      assert needle[d..][k - d] == needle[..|needle| - d][k - d];
    }
  }

  lemma OverlapsStay(s: seq<Octet>, needle: seq<Octet>, ws: seq<nat>, p: nat)
    requires Spaced(ws, |needle|, 0, |s|) && Exact(s, p, needle) && AllOverlap(needle, ws, p)
    ensures Exact(Overlay(s, needle, ws), p, needle)
  {
    var r := Overlay(s, needle, ws);
    forall k | 0 <= k < |needle|
      ensures r[p..p + |needle|][k] == needle[k]
    {
      if Covers(ws, |needle|, p + k) {
        var i :| 0 <= i < |ws| && ws[i] <= p + k < ws[i] + |needle|;
        CoveredByte(s, needle, ws, p, i, k);
      } else {
        SymbolOutside(s, needle, ws, p + k);
        assert s[p..p + |needle|][k] == needle[k];
      }
    }
  }

  lemma StaysOverlap(s: seq<Octet>, needle: seq<Octet>, ws: seq<nat>, p: nat, i: nat)
    requires Spaced(ws, |needle|, 0, |s|) && i < |ws| && p + |needle| <= |s|
    requires Exact(Overlay(s, needle, ws), p, needle)
    ensures SelfOverlaps(needle, Distance(ws[i], p))
  {
    var r, w, d := Overlay(s, needle, ws), ws[i], Distance(ws[i], p);
    if d < |needle| {
      forall k | 0 <= k < |needle| - d
        ensures needle[d..][k] == needle[..|needle| - d][k]
      {
        if w <= p {
          SymbolInside(s, needle, ws, 0, i, k + d);
          assert r[p..p + |needle|][k] == needle[k] && r[p + k] == needle[k + d];
        } else {
          SymbolInside(s, needle, ws, 0, i, k);
          assert r[p..p + |needle|][k + d] == needle[k + d] && r[p + (k + d)] == needle[k];
        }
      }
    }
  }

  /** When an exact match survives the correction: if and only if the needle fits onto itself at the
      distance of each window that overlaps the match. */
  lemma ExactSurvives(s: seq<Octet>, needle: seq<Octet>, p: nat)
    requires needle != [] && Exact(s, p, needle)
    ensures Exact(Corrected(s, needle), p, needle) <==> AllOverlap(needle, Windows(Hits(s, needle), |needle|, 0), p)
  {
    var ws := Windows(Hits(s, needle), |needle|, 0);
    HitsFit(s, needle);
    WindowsGreedy(Hits(s, needle), |needle|, 0);
    if AllOverlap(needle, ws, p) {
      OverlapsStay(s, needle, ws, p);
    }
    if Exact(Corrected(s, needle), p, needle) {
      forall i | 0 <= i < |ws|
        ensures SelfOverlaps(needle, Distance(ws[i], p))
      {
        StaysOverlap(s, needle, ws, p, i);
      }
    }
  }

  /** In particular it survives if no other match begins shortly before it. */
  lemma FirstExactSurvives(s: seq<Octet>, needle: seq<Octet>, p: nat)
    requires needle != [] && Exact(s, p, needle)
    requires forall q: nat :: q < p < q + |needle| ==> !Tolerated(s, q, needle)
    ensures Exact(Corrected(s, needle), p, needle)
  {
    var ws := CorrectionMeans(s, needle);
    ExactIsTolerated(s, p, needle);
    var i :| 0 <= i < |ws| && ws[i] <= p < ws[i] + |needle|;
    assert Tolerated(s, ws[i], needle);
  }

  /** It need not survive: in "`ab" the first two bytes match "ab" with three wrong
      bits, and the correction destroys the exact match behind them. */
  lemma ExactCanBeLost()
    ensures var s: seq<Octet>, needle: seq<Octet> := [0x60, 0x61, 0x62], [0x61, 0x62];
            Exact(s, 1, needle) && !Exact(Corrected(s, needle), 1, needle)
  {
    var s: seq<Octet>, needle: seq<Octet> := [0x60, 0x61, 0x62], [0x61, 0x62];
    assert NumError(0x60, 0x61) == 1 && NumError(0x61, 0x62) == 2;
    var es := Errors(s, 0, needle);
    assert es == [1, 2];
    assert SuffixSum(es, 1) == 2 && SuffixSum(es, 2) == 3;
    BoundTable(1);
    BoundTable(2);
    assert Within(es, 0) && Within(es, 1) && Within(es, 2);
    assert Tolerated(s, 0, needle);
    var hits := Hits(s, needle);
    assert hits[0] && !hits[2];
    assert Windows(hits, 2, 3) == [] && Windows(hits, 2, 2) == [];
    assert Windows(hits, 2, 0) == [0];
    var r := Corrected(s, needle);
    assert r[1] == 0x62;
    assert r[1..3][0] != needle[0];
    assert s[1..3] == needle;
  }
}
