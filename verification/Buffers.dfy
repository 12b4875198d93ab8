/**
 The bytes of a string buffer, as far as a run knows them, and how the copying routines change them (section 7.24
 of C11).

 The string length and the extent of a write are different things, and a bound is unsigned: a negative `int` passed as
 one stands for a size near 2^64. The analyser keeps one length for both, takes the bound as it stands, and gives the
 target of `strcat` the length of the source. `CopyFits`, `AppendFits`, `CatFits` and `FormatFits` say exactly when
 that is enough for `strncpy`, `strncat`, `strcat` and `snprintf`; `CutFits`, `IdleFits` and `TextFits` do so for an
 `snprintf` whose bound or format the analyser does not know, and for `gethostname`.
 */
module Buffers {
  import opened Ranges
  import opened Terms

  // A terminator, a byte that is not one, a byte of unknown value.
  datatype Cell = Nul | Text | Junk

  // The length of the string at the start, terminator included, if the cells settle it.
  function Terminated(cells: seq<Cell>): (len: Option<int>)
    ensures len.Some? ==> 1 <= len.value <= |cells|
  {
    if cells == [] || cells[0] == Junk then None
    else if cells[0] == Nul then Some(1)
    else Shifted(Terminated(cells[1..]), 1)
  }

  function Shifted(len: Option<int>, k: int): Option<int> {
    if len.Some? then Some(k + len.value) else None
  }

  function Fill(c: Cell, n: int): (cells: seq<Cell>)
    ensures |cells| == Max(n, 0) && forall i :: 0 <= i < |cells| ==> cells[i] == c
  {
    seq(Max(n, 0), _ => c)
  }

  // A string of length `len`, terminator included.
  function TextOf(len: int): (cells: seq<Cell>)
    requires len >= 1
    ensures |cells| == len
  {
    Fill(Text, len - 1) + [Nul]
  }

  // The cells from `k` on; whatever lies beyond the known ones is unknown.
  function From(cells: seq<Cell>, k: nat): seq<Cell> { if k <= |cells| then cells[k..] else [] }

  // `piece` written from `at` on.
  function Overlay(cells: seq<Cell>, at: nat, piece: seq<Cell>): (r: seq<Cell>)
    ensures |r| == Max(|cells|, at + |piece|)
  {
    (if at <= |cells| then cells[..at] else cells + Fill(Junk, at - |cells|)) + piece + From(cells, at + |piece|)
  }

  // `siz` bytes are allocated; the last write into them, if any, ended at `reach`.
  datatype Buf = Buf(siz: int, cells: seq<Cell>, reach: Option<int>) {
    function Len(): (len: Option<int>)
      ensures len.Some? ==> 1 <= len.value <= |cells|
    {
      Terminated(cells)
    }

    // Nothing before `at` ends the string: what is written there continues it.
    predicate Joins(at: nat) { at <= |cells| && forall i :: 0 <= i < at ==> cells[i] == Text }

    function Write(at: nat, piece: seq<Cell>): Buf { Buf(siz, Overlay(cells, at, piece), Some(at + |piece|)) }

    // No string and no write extends past the allocated bytes.
    predicate Fits() { (Len().Some? ==> Len().value <= siz) && (reach.Some? ==> reach.value <= siz) }

    // The string extends to `x` or further.
    predicate Spans(x: int) { Len().Some? && x <= Len().value }
  }

  // ----- bounds -----

  const SIZES: int := 0x1_0000_0000_0000_0000

  // An integer converted to a 64-bit `size_t`.
  function ToSize(n: int): (m: nat)
    ensures n >= 0 ==> m == n
  {
    if n >= 0 then n else n % SIZES
  }

  // What `strncpy` writes for a source of length `len`: cut off at `m` bytes, or padded to `m`.
  function Copied(len: int, m: nat): (cells: seq<Cell>)
    requires len >= 1
    ensures |cells| == m
  {
    if m < len then Fill(Text, m) else TextOf(len) + Fill(Nul, m - len)
  }

  // What follows the bytes before `k`.
  function After(b: Buf, k: nat): Option<int> { Terminated(From(b.cells, k)) }

  // The guard of `strncpy` at place `at`, with a source of length `len` and the bound `n`. What it writes must end
  // within the buffer, or where the analyser expects it, or within the old string. If it continues a string, a padded
  // copy must end that string no later than expected, and a truncated one must leave the old string's end in place,
  // or run into bytes that end no string.
  predicate CopyFits(b: Buf, at: nat, len: int, n: int) {
    var m, expected := ToSize(n), at + Min(len, n);
    && (at + m <= b.siz || at + m <= expected || b.Spans(at + m))
    && (b.Joins(at) ==>
          if m >= len then at + len <= expected || b.Spans(at + len) else b.Spans(at + m + 1) || After(b, at + m).None?)
  }

  // The guard of `strncat`: a negative bound must leave nothing to append.
  predicate AppendFits(len: int, n: int) { n >= 0 || len == 1 || ToSize(n) == 0 }

  // The guard of `strcat` at place `at`: the string there is empty, or nothing is appended to it.
  predicate CatFits(b: Buf, at: nat, len: int) { len == 1 || b.Len() == Some(at + 1) }

  // The guard of `snprintf` at place `at`, for `len` formatted bytes, terminator included: a negative bound must write
  // nothing, or stay within the old string, or within the buffer if it continues no string.
  predicate FormatFits(b: Buf, at: nat, len: int, n: int) {
    var m := ToSize(n);
    n >= 0 || m == 0 || (if b.Joins(at) then b.Spans(at + Min(len, m)) else at + Min(len, m) <= b.siz)
  }

  // The least range that holds `a` and the old length.
  function LeastRange(b: Buf, a: int): Range {
    if b.Len().Some? then Range(Min(a, b.Len().value), Max(a, b.Len().value)) else Range(a, a)
  }

  // Whatever range holds `expected` and the old length holds `x` as well.
  predicate Covered(b: Buf, expected: int, x: int) { Holds(LeastRange(b, expected), x) }

  // The guard of a string of length `k` written at `at`, where the analyser expects it to end at `expected`: the two
  // ends and that of the old string must leave no gap, unless it ends within the buffer and continues no string.
  predicate TextFits(b: Buf, at: nat, k: int, expected: int) {
    Covered(b, expected, at + k) || (!b.Joins(at) && at + k <= b.siz)
  }

  // The guard of `snprintf` under a bound the analyser does not know, and takes for none.
  predicate CutFits(b: Buf, at: nat, len: int, n: int) {
    ToSize(n) == 0 || TextFits(b, at, Min(len, ToSize(n)), at + len)
  }

  // Whatever range holds the old length holds `x` as well.
  predicate Undisturbed(b: Buf, x: int) { b.Len().Some? && Holds(Range(b.Len().value, b.Len().value), x) }

  // The guard of a write that the analyser takes no notice of.
  predicate IdleFits(b: Buf, at: nat, len: int, n: int) {
    var m := ToSize(n);
    m == 0 || Undisturbed(b, at + Min(len, m)) || (!b.Joins(at) && at + Min(len, m) <= b.siz)
  }

  // ----- lengths after a write -----

  lemma {:induction false} TextBefore(cells: seq<Cell>, k: nat)
    requires k <= |cells| && forall i :: 0 <= i < k ==> cells[i] == Text
    ensures Terminated(cells) == Shifted(Terminated(cells[k..]), k)
  {
    if k == 0 {
      assert cells[0..] == cells;
    } else {
      TextBefore(cells[1..], k - 1);
      assert cells[1..][k - 1..] == cells[k..];
    }
  }

  lemma {:induction false} StringIsText(cells: seq<Cell>, i: nat)
    requires Terminated(cells).Some? && i < Terminated(cells).value - 1
    ensures i < |cells| && cells[i] == Text
  {
    if i > 0 { StringIsText(cells[1..], i - 1); }
  }

  lemma {:induction false} StringEnds(cells: seq<Cell>)
    requires Terminated(cells).Some?
    ensures cells[Terminated(cells).value - 1] == Nul
  {
    if cells[0] == Text { StringEnds(cells[1..]); }
  }

  // Cells that agree up to the first one that is not text hold the same string, or neither holds one.
  lemma {:induction false} SameStart(a: seq<Cell>, b: seq<Cell>, k: nat)
    requires k < |a| && k < |b| && a[..k + 1] == b[..k + 1] && a[k] != Text
    ensures Terminated(a) == Terminated(b)
  {
    assert a[0] == a[..k + 1][0] == b[..k + 1][0] == b[0];
    if k > 0 && a[0] == Text {
      assert a[1..][..k] == a[..k + 1][1..] == b[..k + 1][1..] == b[1..][..k];
      SameStart(a[1..], b[1..], k - 1);
    }
  }

  lemma AllText(cells: seq<Cell>)
    requires forall i :: 0 <= i < |cells| ==> cells[i] == Text
    ensures Terminated(cells) == None
  {
    TextBefore(cells, |cells|);
  }

  // A place lies in the string exactly if the string extends past it.
  lemma InString(b: Buf, at: nat)
    requires b.Len().Some?
    ensures b.Joins(at) <==> at < b.Len().value
    ensures b.Joins(at) ==> After(b, at) == Some(b.Len().value - at)
  {
    StringEnds(b.cells);
    if at < b.Len().value {
      forall i | 0 <= i < at ensures b.cells[i] == Text { StringIsText(b.cells, i); }
      TextBefore(b.cells, at);
    }
  }

  // What is written after the end of a string, or after unknown bytes, changes no string length.
  lemma WriteApart(b: Buf, at: nat, piece: seq<Cell>)
    requires !b.Joins(at)
    ensures b.Write(at, piece).Len() == b.Len()
  {
    var cells := b.Write(at, piece).cells;
    if i :| 0 <= i < at && i < |b.cells| && b.cells[i] != Text {
      assert cells[..i + 1] == b.cells[..i + 1];
      SameStart(cells, b.cells, i);
    } else {
      AllText(b.cells);
      TextBefore(cells, |b.cells|);
      assert cells[|b.cells|] == Junk;
    }
  }

  // The string continues with the piece written, and then with what follows it.
  lemma WriteJoined(b: Buf, at: nat, piece: seq<Cell>)
    requires b.Joins(at)
    ensures b.Write(at, piece).Len() == Shifted(Terminated(piece + From(b.cells, at + |piece|)), at)
  {
    PrefixSkipped(b.cells[..at], piece, From(b.cells, at + |piece|));
    TextBefore(b.cells[..at] + piece + From(b.cells, at + |piece|), at);
  }

  lemma PrefixSkipped(a: seq<Cell>, b: seq<Cell>, c: seq<Cell>)
    ensures (a + b + c)[|a|..] == b + c && forall i :: 0 <= i < |a| ==> (a + b + c)[i] == a[i]
  {
  }

  lemma TextThenEnds(len: int, rest: seq<Cell>)
    requires len >= 1
    ensures Terminated(TextOf(len) + rest) == Some(len)
  {
    TextBefore(TextOf(len) + rest, len - 1);
  }

  lemma Joined(a: seq<Cell>, b: seq<Cell>, c: seq<Cell>)
    ensures a + b + c == a + (b + c)
  {
  }

  // A string written, and possibly padded, ends where it ends, if it continues one.
  lemma WriteTextLength(b: Buf, at: nat, len: int, padding: seq<Cell>)
    requires len >= 1
    ensures b.Write(at, TextOf(len) + padding).Len() == if b.Joins(at) then Some(at + len) else b.Len()
  {
    var piece := TextOf(len) + padding;
    if b.Joins(at) {
      WriteJoined(b, at, piece);
      TextThenEnds(len, padding + From(b.cells, at + |piece|));
      Joined(TextOf(len), padding, From(b.cells, at + |piece|));
    } else {
      WriteApart(b, at, piece);
    }
  }

  lemma WriteStringLength(b: Buf, at: nat, len: int)
    requires len >= 1
    ensures b.Write(at, TextOf(len)).Len() == if b.Joins(at) then Some(at + len) else b.Len()
  {
    WriteTextLength(b, at, len, []);
    assert TextOf(len) + [] == TextOf(len);
  }

  // What `strncpy` leaves behind: a padded string, text running on into what follows, or the old string untouched.
  lemma CopiedLength(b: Buf, at: nat, len: int, m: nat)
    requires len >= 1
    ensures b.Write(at, Copied(len, m)).Len() ==
            if !b.Joins(at) then b.Len() else if m >= len then Some(at + len) else Shifted(After(b, at + m), at + m)
  {
    if m >= len {
      WriteTextLength(b, at, len, Fill(Nul, m - len));
    } else {
      CutOffLength(b, at, Fill(Text, m));
    }
  }

  lemma CutOffLength(b: Buf, at: nat, piece: seq<Cell>)
    requires forall i :: 0 <= i < |piece| ==> piece[i] == Text
    ensures var m := |piece|;
            b.Write(at, piece).Len() == if b.Joins(at) then Shifted(After(b, at + m), at + m) else b.Len()
  {
    if b.Joins(at) {
      var rest := From(b.cells, at + |piece|);
      WriteJoined(b, at, piece);
      PrefixSkipped(piece, rest, []);
      assert piece + rest + [] == piece + rest && rest + [] == rest;
      TextBefore(piece + rest, |piece|);
    } else {
      WriteApart(b, at, piece);
    }
  }

  // ----- what one range per length can say about it -----

  // The range holds the string length, and the extent of the last write unless that stays within the buffer.
  ghost predicate Inside(b: Buf, r: Range) {
    && (b.Len().Some? ==> Holds(r, b.Len().value))
    && (b.reach.Some? ==> b.reach.value <= b.siz || Holds(r, b.reach.value))
  }

  ghost predicate HoldsLength(b: Buf, r: Range) { b.Len().Some? ==> Holds(r, b.Len().value) }

  // The old length has already reached infinity.
  predicate Infinite(b: Buf) { b.Len().Some? && b.Len().value >= INF }

  lemma HoldsUpTo(r: Range, a: int, b: int, x: int)
    requires Holds(r, a) && a <= x && (x <= a || (Holds(r, b) && x <= b))
    ensures Holds(r, x)
  {
  }

  // ----- strncpy -----

  // The range holds what the constraint for `strncpy` sends into it, and the old length.
  ghost predicate CopyReceived(b: Buf, at: nat, len: int, n: int, r: Range) {
    Holds(r, at + Min(len, n)) && HoldsLength(b, r)
  }

  lemma CopyStaysInside(b: Buf, at: nat, len: int, n: int, r: Range)
    requires len >= 1 && CopyFits(b, at, len, n) && CopyReceived(b, at, len, n, r)
    ensures Inside(b.Write(at, Copied(len, ToSize(n))), r)
  {
    var m, a := ToSize(n), at + Min(len, n);
    CopiedLength(b, at, len, m);
    var w := if b.Len().Some? then b.Len().value else a;
    if at + m > b.siz { HoldsUpTo(r, a, w, at + m); }
    if b.Joins(at) && m >= len { HoldsUpTo(r, a, w, at + len); }
    if b.Spans(at + m + 1) { InString(b, at + m); }
  }

  // Every range the constraint allows covers what `strncpy` leaves behind exactly under the guard, for every bound, as
  // long as the lengths involved stay short of infinity.
  lemma StrncpyRuleIsExact(b: Buf, at: nat, len: int, n: int)
    requires len >= 1
    ensures (forall r :: CopyReceived(b, at, len, n, r) ==> Inside(b.Write(at, Copied(len, ToSize(n))), r)) <==>
            CopyFits(b, at, len, n) || at + Min(len, n) >= INF || Infinite(b)
  {
    LeastCopyFits(b, at, len, n);
    forall r | CopyFits(b, at, len, n) && CopyReceived(b, at, len, n, r)
      ensures Inside(b.Write(at, Copied(len, ToSize(n))), r)
    {
      CopyStaysInside(b, at, len, n, r);
    }
  }

  lemma LeastCopyFits(b: Buf, at: nat, len: int, n: int)
    requires len >= 1
    ensures var r := LeastRange(b, at + Min(len, n));
            && CopyReceived(b, at, len, n, r)
            && (Inside(b.Write(at, Copied(len, ToSize(n))), r) ==>
                CopyFits(b, at, len, n) || at + Min(len, n) >= INF || Infinite(b))
            && (at + Min(len, n) >= INF || Infinite(b) ==> forall s :: CopyReceived(b, at, len, n, s) ==>
                  CopyFits(b, at, len, n) || Inside(b.Write(at, Copied(len, ToSize(n))), s))
  {
    var m := ToSize(n);
    CopiedLength(b, at, len, m);
    if b.Len().Some? { InString(b, at + m); }
  }

  // ----- strncat -----

  // What `strncat` leaves behind: the string in place, continued by as much of the source as the bound lets through.
  function Appended(b: Buf, len: int, n: int): Buf
    requires len >= 1 && b.Len().Some?
  {
    b.Write(b.Len().value - 1, TextOf(Min(len - 1, ToSize(n)) + 1))
  }

  lemma AppendedLength(b: Buf, len: int, n: int)
    requires len >= 1 && b.Len().Some?
    ensures var c := Appended(b, len, n); c.Len() == c.reach == Some(b.Len().value + Min(len - 1, ToSize(n)))
  {
    ExtendedLength(b, Min(len - 1, ToSize(n)));
  }

  lemma ExtendedLength(b: Buf, k: nat)
    requires b.Len().Some?
    ensures var c := b.Write(b.Len().value - 1, TextOf(k + 1)); c.Len() == c.reach == Some(b.Len().value + k)
  {
    InString(b, b.Len().value - 1);
    WriteStringLength(b, b.Len().value - 1, k + 1);
  }

  // The range holds the old length and, with every length, what the constraint for `strncat` makes of it.
  ghost predicate AppendReceived(b: Buf, len: int, n: int, r: Range) {
    HoldsLength(b, r) && forall x :: Holds(r, x) ==> Holds(r, x + Min(len - 1, n))
  }

  lemma AppendStaysInside(b: Buf, len: int, n: int, r: Range)
    requires len >= 1 && b.Len().Some? && AppendFits(len, n)
    requires Holds(r, b.Len().value) && (n >= 0 ==> Holds(r, b.Len().value + Min(len - 1, n)))
    ensures Inside(Appended(b, len, n), r)
  {
    AppendedLength(b, len, n);
  }

  // Likewise for `strncat`: its guard fails exactly at the negative bounds that let something through.
  lemma StrncatRuleIsExact(b: Buf, len: int, n: int)
    requires len >= 1 && b.Len().Some?
    ensures (forall r :: AppendReceived(b, len, n, r) ==> Inside(Appended(b, len, n), r)) <==>
            AppendFits(len, n) || Infinite(b)
  {
    AppendedLength(b, len, n);
    var r := Range(NEGINF, b.Len().value);
    assert n < 0 ==> AppendReceived(b, len, n, r);
    forall r | AppendFits(len, n) && AppendReceived(b, len, n, r) ensures Inside(Appended(b, len, n), r) {
      AppendStaysInside(b, len, n, r);
    }
  }

  // ----- strcat -----

  // The range holds what the constraint for `strcat` sends into it, the length of the source alone, and the old length.
  ghost predicate CatReceived(b: Buf, at: nat, len: int, r: Range) { Holds(r, at + len) && HoldsLength(b, r) }

  lemma CatStaysInside(b: Buf, at: nat, len: int, r: Range)
    requires len >= 1 && b.Spans(at + 1) && CatFits(b, at, len) && CatReceived(b, at, len, r)
    ensures Inside(Appended(b, len, len), r)
  {
    AppendedLength(b, len, len);
  }

  // The rule for `strcat` is right only where the routine does no more than `strcpy`, or nothing.
  lemma StrcatRuleIsExact(b: Buf, at: nat, len: int)
    requires len >= 1 && b.Spans(at + 1)
    ensures (forall r :: CatReceived(b, at, len, r) ==> Inside(Appended(b, len, len), r)) <==>
            CatFits(b, at, len) || at + len >= INF || Infinite(b)
  {
    AppendedLength(b, len, len);
    var r := LeastRange(b, at + len);
    assert CatReceived(b, at, len, r);
    forall r | CatFits(b, at, len) && CatReceived(b, at, len, r) ensures Inside(Appended(b, len, len), r) {
      CatStaysInside(b, at, len, r);
    }
  }

  // ----- snprintf -----

  // What `snprintf` leaves behind: nothing new under a bound of 0, else as many of the `len` bytes as the bound lets
  // through, the last one a terminator.
  function Formatted(b: Buf, at: nat, len: int, n: int): Buf
    requires len >= 1
  {
    if ToSize(n) == 0 then b else b.Write(at, TextOf(Min(len, ToSize(n))))
  }

  // The range holds what the constraint for `snprintf` sends into it, and the old length.
  ghost predicate FormatReceived(b: Buf, at: nat, len: int, n: int, r: Range) {
    Holds(r, at + Min(len, n)) && HoldsLength(b, r)
  }

  lemma FormatStaysInside(b: Buf, at: nat, len: int, n: int, r: Range)
    requires len >= 1 && FormatFits(b, at, len, n) && FormatReceived(b, at, len, n, r)
    requires ToSize(n) > 0 || Inside(b, r)
    ensures Inside(Formatted(b, at, len, n), r)
  {
    var m := ToSize(n);
    if m > 0 {
      WriteStringLength(b, at, Min(len, m));
      if n < 0 && b.Joins(at) { HoldsUpTo(r, at + Min(len, n), b.Len().value, at + Min(len, m)); }
    }
  }

  // And for `snprintf`, whose guard can fail only at negative bounds. Under a bound of 0 nothing is written at all.
  lemma SnprintfRuleIsExact(b: Buf, at: nat, len: int, n: int)
    requires len >= 1
    ensures ToSize(n) == 0 ==> Formatted(b, at, len, n) == b && FormatFits(b, at, len, n)
    ensures ToSize(n) > 0 ==>
              ((forall r :: FormatReceived(b, at, len, n, r) ==> Inside(Formatted(b, at, len, n), r)) <==>
               FormatFits(b, at, len, n) || at + Min(len, n) >= INF || Infinite(b))
  {
    var m := ToSize(n);
    if m > 0 {
      var r := LeastRange(b, at + Min(len, n));
      assert FormatReceived(b, at, len, n, r);
      WriteStringLength(b, at, Min(len, m));
      if b.Len().Some? { InString(b, at); }
      forall r | FormatFits(b, at, len, n) && FormatReceived(b, at, len, n, r)
        ensures Inside(Formatted(b, at, len, n), r)
      {
        FormatStaysInside(b, at, len, n, r);
      }
    }
  }

  // ----- writes of other lengths than expected -----

  // A string of any length, against a range that holds the expected end and the old length.
  lemma TextRuleIsExact(b: Buf, at: nat, k: int, expected: int)
    requires k >= 1
    ensures (forall r :: Holds(r, expected) && HoldsLength(b, r) ==> Inside(b.Write(at, TextOf(k)), r)) <==>
            TextFits(b, at, k, expected)
  {
    WriteStringLength(b, at, k);
    var r := LeastRange(b, expected);
    assert Holds(r, expected) && HoldsLength(b, r);
  }

  // `snprintf` under a bound the analyser takes for none.
  lemma CutRuleIsExact(b: Buf, at: nat, len: int, n: int)
    requires len >= 1
    ensures (forall r ::
               Holds(r, at + len) && HoldsLength(b, r) && Inside(b, r) ==> Inside(Formatted(b, at, len, n), r))
            <== CutFits(b, at, len, n)
    ensures ToSize(n) > 0 ==>
              ((forall r :: Holds(r, at + len) && HoldsLength(b, r) ==> Inside(Formatted(b, at, len, n), r)) <==>
               CutFits(b, at, len, n))
  {
    if ToSize(n) > 0 { TextRuleIsExact(b, at, Min(len, ToSize(n)), at + len); }
  }

  // `snprintf` with a format the analyser does not know: it records nothing.
  lemma IdleRuleIsExact(b: Buf, at: nat, len: int, n: int)
    requires len >= 1
    ensures ToSize(n) == 0 ==> Formatted(b, at, len, n) == b
    ensures ToSize(n) > 0 ==>
              ((forall r :: HoldsLength(b, r) ==> Inside(Formatted(b, at, len, n), r)) <==> IdleFits(b, at, len, n))
  {
    var m := ToSize(n);
    if m > 0 {
      WriteStringLength(b, at, Min(len, m));
      var r := if b.Len().Some? then Range(b.Len().value, b.Len().value) else EMPTY;
      assert HoldsLength(b, r);
    }
  }

  // ----- what goes wrong -----

  // Truncating into a zero-filled array: the length is `n + 1`, where the analyser has at most `n`.
  lemma TruncatedCopyIsMissed(size: int, len: int, n: int)
    requires 1 <= n < len && n < size && n < INF
    ensures var b := Buf(size, TextOf(1) + Fill(Nul, size - 1), Some(1)).Write(0, Copied(len, n));
            b.Len() == Some(n + 1) && !Inside(b, Range(1, n))
  {
    var b := Buf(size, TextOf(1) + Fill(Nul, size - 1), Some(1));
    assert b.cells[0] == Nul && b.cells[n] == Nul;
    assert b.Len() == Some(1) && After(b, n) == Some(1);
    CopiedLength(b, 0, len, n);
  }

  // Padding past the end: `n` bytes are written, where the analyser has the source length.
  lemma PaddingIsMissed(size: int, len: int, n: int)
    requires 1 <= len <= size < n && len < INF
    ensures var b := Buf(size, [], None).Write(0, Copied(len, n));
            !b.Fits() && b.Len() == Some(len) && !Inside(b, Range(len, len))
  {
    CopiedLength(Buf(size, [], None), 0, len, n);
  }

  // A negative bound appends the whole source, where the analyser lets the length shrink.
  lemma NegativeBoundIsMissed(b: Buf, len: int, n: int)
    requires b.Len().Some? && b.Len().value < INF && 1 < len <= 1 + ToSize(n) && n < 0
    ensures Appended(b, len, n).Len() == Some(b.Len().value + len - 1)
    ensures !Inside(Appended(b, len, n), Range(NEGINF, b.Len().value))
  {
    AppendedLength(b, len, n);
  }

  // An array filled exactly by its initializer holds no string.
  lemma ExactFitIsUnterminated(size: nat, len: int)
    requires len == size + 1
    ensures Terminated(TextOf(len)[..size]) == None
  {
    AllText(TextOf(len)[..size]);
  }
}
