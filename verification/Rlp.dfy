/** The RLP codec behind Ethereum transaction signing hashes (Ethereum Yellow Paper, Appendix B). */
module Rlp {
  import opened Common

  type byte = x: int | 0 <= x < 256

  /** One more than the largest `usize` (and `u64`). */
  const WORD: nat := 0x1_0000_0000_0000_0000

  datatype Error = Empty | Truncated | NotAList

  /** What a call comes to in a release build, where sums wrap: `Panic` is a slice that ends before it starts,
      `Diverges` a loop that never ends. */
  datatype Result<+T> = Ok(value: T) | Err(error: Error) | Panic | Diverges

  /** A decoded item and the number of bytes it took. */
  datatype Item = Item(bytes: seq<byte>, consumed: nat)

  // ------------------------------------------------------------------
  // Big-endian lengths
  // ------------------------------------------------------------------

  /** Big-endian value in a machine word: bytes shifted out at the top are lost. */
  function FromBe(bytes: seq<byte>): (v: nat)
    ensures v < WORD
  {
    if bytes == [] then 0 else (FromBe(bytes[..|bytes| - 1]) * 256 + bytes[|bytes| - 1]) % WORD
  }

  method BeToUsize(bytes: seq<byte>) returns (value: nat)
    ensures value == FromBe(bytes)
  {
    value := 0;
    for i := 0 to |bytes|
      invariant value == FromBe(bytes[..i])
    {
      assert bytes[..i + 1][..i] == bytes[..i];
      value := (value * 256 + bytes[i]) % WORD;
    }
    assert bytes[..|bytes|] == bytes;
  }

  /** Minimal big-endian bytes; zero has none. */
  function Be(v: nat): seq<byte> {
    if v == 0 then [] else Be(v / 256) + [v % 256]
  }

  function Reverse(s: seq<byte>): seq<byte> {
    if s == [] then [] else Reverse(s[1..]) + [s[0]]
  }

  lemma {:induction false} ReverseSnoc(s: seq<byte>, b: byte)
    ensures Reverse(s + [b]) == [b] + Reverse(s)
  {
    if s != [] {
      assert (s + [b])[1..] == s[1..] + [b];
      ReverseSnoc(s[1..], b);
    }
  }

  /** Length bytes: low byte first, then reversed; zero is one zero byte. */
  method UsizeToBe(value: nat) returns (r: seq<byte>)
    ensures r == if value == 0 then [0] else Be(value)
  {
    if value == 0 {
      return [0];
    }
    var v := value;
    var low: seq<byte> := [];
    while v > 0
      invariant Be(value) == Be(v) + Reverse(low)
    {
      ReverseSnoc(low, v % 256);
      assert Be(v) + Reverse(low) == Be(v / 256) + ([v % 256] + Reverse(low));
      low := low + [v % 256];
      v := v / 256;
    }
    r := Reverse(low);
  }

  /** The eight big-endian bytes of a word. */
  function Be8(v: nat, k: nat): (r: seq<byte>)
    ensures |r| == k
  {
    if k == 0 then [] else Be8(v / 256, k - 1) + [v % 256]
  }

  lemma {:induction false} Be8Strips(v: nat, k: nat, start: nat)
    requires start <= k && (forall i :: 0 <= i < start ==> Be8(v, k)[i] == 0)
    requires start < k ==> Be8(v, k)[start] != 0
    requires v < Pow256(k)
    ensures Be8(v, k)[start..] == Be(v)
  {
    if k > 0 {
      var front := Be8(v / 256, k - 1);
      assert Be8(v, k) == front + [v % 256];
      assert v / 256 < Pow256(k - 1);
      if start == k {
        assert forall i :: 0 <= i < k - 1 ==> front[i] == Be8(v, k)[i];
        Be8Strips(v / 256, k - 1, k - 1);
        assert front[k - 1..] == [];
        BeEmpty(v / 256);
        assert Be8(v, k)[k - 1] == v % 256 == 0;
      } else {
        assert forall i :: 0 <= i < start ==> front[i] == Be8(v, k)[i];
        assert start < k - 1 ==> front[start] == Be8(v, k)[start];
        Be8Strips(v / 256, k - 1, start);
        assert Be8(v, k)[start..] == front[start..] + [v % 256];
        if v == 0 {
          Be8Zero(k, start);
        }
      }
    }
  }

  lemma {:induction false} Be8Zero(k: nat, i: nat)
    requires i < k
    ensures Be8(0, k)[i] == 0
  {
    if i < k - 1 {
      Be8Zero(k - 1, i);
    }
  }

  lemma BeEmpty(v: nat)
    requires Be(v) == []
    ensures v == 0
  {}

  function Pow256(k: nat): nat {
    if k == 0 then 1 else 256 * Pow256(k - 1)
  }

  /** `rlp_from_u64`: the eight bytes without their leading zeros. */
  method FromU64(value: nat) returns (r: seq<byte>)
    requires value < WORD
    ensures r == Be(value)
  {
    if value == 0 {
      return [];
    }
    var bytes := Be8(value, 8);
    var start := 0;
    while start < 8 && bytes[start] == 0
      invariant 0 <= start <= 8 && forall i :: 0 <= i < start ==> bytes[i] == 0
    {
      start := start + 1;
    }
    assert Pow256(8) == WORD;
    Be8Strips(value, 8, start);
    r := bytes[start..];
  }

  /** Decoding undoes minimal big-endian encoding, for every word (`rlp_to_u64` after `rlp_from_u64`). */
  lemma {:induction false} FromBeUndoesBe(v: nat)
    requires v < WORD
    ensures FromBe(Be(v)) == v
  {
    if v > 0 {
      FromBeUndoesBe(v / 256);
      assert (Be(v / 256) + [v % 256])[..|Be(v / 256)|] == Be(v / 256);
    }
  }

  lemma {:induction false} BeLength(v: nat, k: nat)
    requires v < Pow256(k)
    ensures |Be(v)| <= k && (v > 0 ==> |Be(v)| >= 1)
  {
    if v > 0 {
      BeLength(v / 256, k - 1);
    }
  }

  // ------------------------------------------------------------------
  // Encoding
  // ------------------------------------------------------------------

  /** Prefix of a payload of length `n`: one byte up to 55, else the length of the length, then the length. */
  function Header(short: byte, long: byte, n: nat): seq<byte>
    requires short <= 200 && long <= 247 && n < WORD
  {
    BeLength8(n);
    if n <= 55 then [short + n] else [long + |Be(n)|] + Be(n)
  }

  lemma BeLength8(n: nat)
    ensures n < WORD ==> |Be(n)| <= 8 && (n > 0 ==> |Be(n)| >= 1)
  {
    assert Pow256(8) == WORD;
    if n < WORD {
      BeLength(n, 8);
    }
  }

  function EncodeBytes(b: seq<byte>): seq<byte>
    requires |b| < WORD
  {
    if |b| == 1 && b[0] < 0x80 then b else Header(0x80, 0xb7, |b|) + b
  }

  predicate Fits(items: seq<seq<byte>>) {
    forall b <- items :: |b| < WORD
  }

  function Payload(items: seq<seq<byte>>): seq<byte>
    requires Fits(items)
  {
    if items == [] then [] else EncodeBytes(items[0]) + Payload(items[1..])
  }

  function EncodeList(items: seq<seq<byte>>): seq<byte>
    requires Fits(items) && |Payload(items)| < WORD
  {
    Header(0xc0, 0xf7, |Payload(items)|) + Payload(items)
  }

  lemma {:induction false} PayloadSnoc(items: seq<seq<byte>>, b: seq<byte>)
    requires Fits(items + [b]) && Fits(items) && |b| < WORD
    ensures Payload(items + [b]) == Payload(items) + EncodeBytes(b)
  {
    hide EncodeBytes, Header, Be;
    if items == [] {
      assert [] + [b] == [b];
    } else {
      assert (items + [b])[1..] == items[1..] + [b] && (items + [b])[0] == items[0];
      assert forall x <- items[1..] + [b] :: x in items + [b];
      PayloadSnoc(items[1..], b);
    }
  }

  /** The encoder's loop over the items. */
  method RlpEncodeList(items: seq<seq<byte>>) returns (out: seq<byte>)
    requires Fits(items) && |Payload(items)| < WORD
    ensures out == EncodeList(items)
  {
    var payload: seq<byte> := [];
    for i := 0 to |items|
      invariant Fits(items[..i]) && payload == Payload(items[..i])
    {
      assert items[..i + 1] == items[..i] + [items[i]];
      PayloadSnoc(items[..i], items[i]);
      payload := payload + EncodeBytes(items[i]);
    }
    assert items[..|items|] == items;
    out := Header(0xc0, 0xf7, |payload|) + payload;
  }

  // ------------------------------------------------------------------
  // Decoding
  // ------------------------------------------------------------------

  /** Where a payload starts and ends, given its prefix's short base, unless the data is too short. Lengths of 56 and
      more sit in the next bytes; the end is their machine-word sum with the start, so it may lie before the start. */
  function Extent(data: seq<byte>, base: byte): (r: Option<(nat, nat)>)
    requires data != [] && base <= data[0] && base <= 200
    ensures r.Some? ==> r.value.0 <= |data| && r.value.1 <= |data|
  {
    var n := data[0] - base;
    if n <= 55 then
      if |data| < 1 + n then None else Some((1, 1 + n))
    else
      var start := 1 + n - 55;
      if |data| < start then None
      else
        var end := (start + FromBe(data[1..start])) % WORD;
        if |data| < end then None else Some((start, end))
  }

  /** The next item: strings are unwrapped, nested lists returned with their prefix. */
  function NextItem(data: seq<byte>): (r: Result<Item>)
    ensures r.Ok? ==> r.value.consumed <= |data|
    ensures !r.Diverges?
  {
    if data == [] then Err(Empty)
    else if data[0] < 0x80 then Ok(Item([data[0]], 1))
    else if data[0] <= 0xbf then
      match Extent(data, 0x80)
      case None => Err(Truncated)
      case Some((from, to)) => if from > to then Panic else Ok(Item(data[from..to], to))
    else
      match Extent(data, 0xc0)
      case None => Err(Truncated)
      case Some((_, to)) => Ok(Item(data[..to], to))
  }

  /** The items from some point on. An item of no bytes is met again and again: the loop never ends. */
  function DecodeItems(data: seq<byte>): Result<seq<seq<byte>>> {
    if data == [] then Ok([])
    else match NextItem(data)
      case Ok(item) =>
        if item.consumed == 0 then Diverges else After([item.bytes], DecodeItems(data[item.consumed..]))
      case Err(e) => Err(e)
      case Panic => Panic
      case Diverges => Diverges
  }

  function DecodeList(data: seq<byte>): Result<seq<seq<byte>>> {
    if data == [] then Err(Empty)
    else if data[0] < 0xc0 then Err(NotAList)
    else match Extent(data, 0xc0)
      case None => Err(Truncated)
      case Some((from, to)) => if from > to then Panic else DecodeItems(data[from..to])
  }

  /** What is decoded from some point on, after the items already found. */
  function After(done: seq<seq<byte>>, rest: Result<seq<seq<byte>>>): Result<seq<seq<byte>>> {
    if rest.Ok? then Ok(done + rest.value) else rest
  }

  /** The decoder's loop, wherever it ends. */
  method RlpDecodeList(data: seq<byte>) returns (r: Result<seq<seq<byte>>>)
    requires !DecodeList(data).Diverges?
    ensures r == DecodeList(data)
  {
    hide NextItem, Extent, After, DecodeItems;
    if data == [] {
      return Err(Empty);
    }
    if data[0] < 0xc0 {
      return Err(NotAList);
    }
    match Extent(data, 0xc0) {
      case None => return Err(Truncated);
      case Some((from, to)) =>
        if from > to {
          return Panic;
        }
        var payload := data[from..to];
        var items: seq<seq<byte>>, pos := [], 0;
        assert payload[0..] == payload;
        AfterNothing(DecodeItems(payload));
        while pos < |payload|
          invariant 0 <= pos <= |payload|
          invariant DecodeItems(payload) == After(items, DecodeItems(payload[pos..]))
        {
          DecodeTurn(payload, items, pos);
          match NextItem(payload[pos..]) {
            case Ok(item) =>
              items := items + [item.bytes];
              pos := pos + item.consumed;
            case Err(e) => return Err(e);
            case Panic => return Panic;
          }
        }
        AfterAll(items, payload[pos..]);
        return Ok(items);
    }
  }

  lemma DecodeTurn(payload: seq<byte>, items: seq<seq<byte>>, pos: nat)
    requires pos < |payload|
    ensures var all := After(items, DecodeItems(payload[pos..]));
            match NextItem(payload[pos..])
            case Ok(item) => if item.consumed == 0 then all == Diverges
                             else all == After(items + [item.bytes], DecodeItems(payload[pos + item.consumed..]))
            case Err(e) => all == Err(e)
            case Panic => all == Panic
            case Diverges => false
  {
    hide NextItem, After;
    var rest := payload[pos..];
    AfterFailed(items);
    if NextItem(rest).Ok? {
      var item := NextItem(rest).value;
      assert rest[item.consumed..] == payload[pos + item.consumed..];
      AfterOne(items, item.bytes, DecodeItems(payload[pos + item.consumed..]));
    }
  }

  lemma AfterAll(items: seq<seq<byte>>, rest: seq<byte>)
    requires rest == []
    ensures After(items, DecodeItems(rest)) == Ok(items)
  {
    assert items + [] == items;
  }

  lemma AfterFailed(items: seq<seq<byte>>)
    ensures After(items, Diverges) == Diverges && After(items, Panic) == Panic && forall e :: After(items, Err(e)) == Err(e)
  {}

  lemma AfterNothing(rest: Result<seq<seq<byte>>>)
    ensures After([], rest) == rest
  {
    if rest.Ok? {
      assert [] + rest.value == rest.value;
    }
  }

  lemma AfterOne(done: seq<seq<byte>>, b: seq<byte>, rest: Result<seq<seq<byte>>>)
    ensures After(done, After([b], rest)) == After(done + [b], rest)
  {
    if rest.Ok? {
      assert done + ([b] + rest.value) == (done + [b]) + rest.value;
    }
  }

  // ------------------------------------------------------------------
  // Progress
  // ------------------------------------------------------------------

  /** A long list whose length is nine short of the word size. */
  const STALL: seq<byte> := [0xff, 0xff, 0xff, 0xff, 0xff, 0xff, 0xff, 0xff, 0xf7]

  lemma FromBeStep(b: seq<byte>)
    requires b != []
    ensures FromBe(b) == (FromBe(b[..|b| - 1]) * 256 + b[|b| - 1]) % WORD
  {}

  lemma ShiftFits(v: nat, last: byte, k: nat)
    requires v < Pow256(k) && k < 8
    ensures v * 256 + last < Pow256(k + 1) <= WORD
  {
    assert Pow256(8) == WORD;
    PowMono(k + 1, 8);
    assert Pow256(k + 1) == 256 * Pow256(k);
    hide Pow256;
  }

  lemma FromBeSnoc(b: seq<byte>)
    requires 0 < |b| <= 8 && FromBe(b[..|b| - 1]) < Pow256(|b| - 1)
    ensures FromBe(b) == FromBe(b[..|b| - 1]) * 256 + b[|b| - 1] < Pow256(|b|) <= WORD
  {
    hide FromBe, Pow256;
    FromBeStep(b);
    ShiftFits(FromBe(b[..|b| - 1]), b[|b| - 1], |b| - 1);
    WrapOnce(FromBe(b[..|b| - 1]) * 256 + b[|b| - 1]);
  }

  lemma Be8Snoc(v: nat, b: byte, k: nat)
    ensures Be8(v * 256 + b, k + 1) == Be8(v, k) + [b]
  {
    assert (v * 256 + b) / 256 == v && (v * 256 + b) % 256 == b;
  }

  /** Up to eight bytes are a number without wrapping, and can be read back off it. */
  lemma {:induction false} FromBeBounds(b: seq<byte>)
    requires |b| <= 8
    ensures FromBe(b) < Pow256(|b|)
    ensures Be8(FromBe(b), |b|) == b
  {
    if b != [] {
      FromBeBounds(b[..|b| - 1]);
      FromBeSnoc(b);
      Be8Snoc(FromBe(b[..|b| - 1]), b[|b| - 1], |b| - 1);
      hide FromBe, Pow256, Be8;
      assert b == b[..|b| - 1] + [b[|b| - 1]];
    }
  }

  lemma {:induction false} PowMono(j: nat, k: nat)
    requires j <= k
    ensures Pow256(j) <= Pow256(k)
  {
    if j < k {
      PowMono(j, k - 1);
    }
  }

  lemma WrapOnce(x: nat)
    requires x < 2 * WORD
    ensures x % WORD == if x < WORD then x else x - WORD
  {}

  lemma ShortLength(b: seq<byte>)
    requires |b| <= 8
    ensures |b| <= 7 ==> FromBe(b) < 0x100_0000_0000_0000
  {
    hide FromBe;
    FromBeBounds(b);
    if |b| <= 7 {
      PowMono(|b|, 7);
      assert Pow256(7) == 0x100_0000_0000_0000;
    }
  }

  /** Only an eight-byte length can make the end wrap, and then the end is that much short of the word size. */
  lemma ExtentWraps(data: seq<byte>, base: byte)
    requires data != [] && base <= data[0] && base <= 192 && data[0] <= base + 63 && Extent(data, base).Some?
    ensures var (from, to) := Extent(data, base).value;
            from > to <==> data[0] == base + 63 && FromBe(data[1..9]) >= WORD - 9
    ensures var (from, to) := Extent(data, base).value;
            from > to ==> |data| >= 9 && from == 9 && to == FromBe(data[1..9]) - (WORD - 9)
  {
    hide FromBe;
    var n := data[0] - base;
    if n > 55 {
      var start := 1 + n - 55;
      ShortLength(data[1..start]);
      WrapOnce(start + FromBe(data[1..start]));
    }
  }

  lemma StallBytes()
    ensures Be8(WORD - 9, 8) == STALL[1..]
  {
    assert Be8(0xff, 1) == [0xff];
    assert Be8(0xffff, 2) == Be8(0xff, 1) + [0xff];
    assert Be8(0xffffff, 3) == Be8(0xffff, 2) + [0xff];
    assert Be8(0xffffffff, 4) == Be8(0xffffff, 3) + [0xff];
    assert Be8(0xffffffffff, 5) == Be8(0xffffffff, 4) + [0xff];
    assert Be8(0xffffffffffff, 6) == Be8(0xffffffffff, 5) + [0xff];
    assert Be8(0xffffffffffffff, 7) == Be8(0xffffffffffff, 6) + [0xff];
    assert Be8(WORD - 9, 8) == Be8(0xffffffffffffff, 7) + [0xf7];
  }

  /** The length of the stalling item. */
  lemma StallLength(b: seq<byte>)
    requires |b| == 8
    ensures FromBe(b) == WORD - 9 <==> b == STALL[1..]
  {
    assert Pow256(8) == WORD;
    hide Be8, FromBe, Pow256;
    StallBytes();
    FromBeBounds(b);
    FromBeBe8(WORD - 9, 8);
  }

  lemma {:induction false} FromBeBe8(v: nat, k: nat)
    requires v < Pow256(k) && k <= 8
    ensures FromBe(Be8(v, k)) == v
  {
    if k > 0 {
      FromBeBe8(v / 256, k - 1);
      assert Pow256(8) == WORD;
      PowMono(k, 8);
      assert Be8(v, k)[..k - 1] == Be8(v / 256, k - 1);
    }
  }

  /** Progress: every item takes at least a byte, except exactly the long list whose end wraps to zero. */
  lemma ItemStalls(data: seq<byte>)
    ensures NextItem(data).Ok? && NextItem(data).value.consumed == 0 <==> STALL <= data
    ensures STALL <= data ==> NextItem(data) == Ok(Item([], 0))
  {
    if |data| >= 9 {
      StallLength(data[1..9]);
      assert STALL == [0xff] + STALL[1..];
      assert data[..9] == [data[0]] + data[1..9];
      assert STALL <= data <==> data[..9] == STALL;
    }
    if data != [] && data[0] >= 0xc0 {
      ListEnd(data);
      hide Extent, FromBe;
    }
  }

  /** Where a nested list ends. */
  lemma ListEnd(data: seq<byte>)
    requires data != [] && data[0] >= 0xc0
    ensures Extent(data, 0xc0).Some? && Extent(data, 0xc0).value.1 == 0 <==>
              |data| >= 9 && data[0] == 0xff && FromBe(data[1..9]) == WORD - 9
  {
    if Extent(data, 0xc0).Some? {
      ExtentWraps(data, 0xc0);
    } else if |data| >= 9 && data[0] == 0xff {
      FromBeBounds(data[1..9]);
    }
  }

  /** An item panics exactly when it is a long string whose eight-byte length makes its end wrap. */
  lemma ItemPanics(data: seq<byte>)
    ensures NextItem(data).Panic? <==> |data| >= 9 && data[0] == 0xbf && FromBe(data[1..9]) >= WORD - 9
  {
    if data != [] && 0x80 <= data[0] <= 0xbf {
      if Extent(data, 0x80).Some? {
        ExtentWraps(data, 0x80);
      } else if |data| >= 9 && data[0] == 0xbf {
        FromBeBounds(data[1..9]);
      }
    }
  }

  /** The loop's variables, or its outcome. */
  datatype Loop = At(items: seq<seq<byte>>, pos: nat) | Done(result: Result<seq<seq<byte>>>)

  function LoopStep(payload: seq<byte>, s: Loop): Loop {
    if s.Done? then s
    else if s.pos >= |payload| then Done(Ok(s.items))
    else match NextItem(payload[s.pos..])
      case Ok(item) => At(s.items + [item.bytes], s.pos + item.consumed)
      case Err(e) => Done(Err(e))
      case Panic => Done(Panic)
      case Diverges => Done(Diverges)
  }

  /** The loop after `n` turns. */
  function LoopAfter(payload: seq<byte>, n: nat): Loop {
    if n == 0 then At([], 0) else LoopStep(payload, LoopAfter(payload, n - 1))
  }

  predicate StalledAt(payload: seq<byte>, n: nat) {
    var s := LoopAfter(payload, n);
    s.At? && s.pos <= |payload| && STALL <= payload[s.pos..]
  }

  lemma {:induction false} LoopInvariant(payload: seq<byte>, n: nat)
    ensures match LoopAfter(payload, n)
            case Done(r) => r == DecodeItems(payload) && !r.Diverges?
            case At(items, pos) => && pos <= |payload|
                                   && DecodeItems(payload) == After(items, DecodeItems(payload[pos..]))
                                   && (pos >= n || STALL <= payload[pos..])
  {
    hide NextItem;
    if n == 0 {
      assert payload[0..] == payload;
      AfterNothing(DecodeItems(payload));
    } else {
      LoopInvariant(payload, n - 1);
      var s := LoopAfter(payload, n - 1);
      if s.At? {
        LoopTurn(payload, s, n - 1);
      }
    }
  }

  lemma LoopTurn(payload: seq<byte>, s: Loop, n: nat)
    requires s.At? && s.pos <= |payload| && (s.pos >= n || STALL <= payload[s.pos..])
    ensures match LoopStep(payload, s)
            case Done(r) => r == After(s.items, DecodeItems(payload[s.pos..])) && !r.Diverges?
            case At(items, pos) => && pos <= |payload|
                                   && After(items, DecodeItems(payload[pos..])) == After(s.items, DecodeItems(payload[s.pos..]))
                                   && (pos >= n + 1 || STALL <= payload[pos..])
  {
    hide NextItem, After, DecodeItems;
    var rest := payload[s.pos..];
    ItemStalls(rest);
    if rest == [] {
      AfterAll(s.items, rest);
    } else {
      DecodeTurn(payload, s.items, s.pos);
      if STALL <= rest {
        assert payload[s.pos + 0..] == rest;
        AfterFailed(s.items + [[]]);
        StallDiverges(rest);
      }
    }
  }

  lemma StallDiverges(rest: seq<byte>)
    requires STALL <= rest
    ensures DecodeItems(rest) == Diverges
  {
    ItemStalls(rest);
  }

  /** The recursive decoder decides the loop, on every payload: it ends, within a turn per byte and one more, with the
      decoder's outcome, or it never ends, exactly when the decoder says so. */
  lemma LoopDecided(payload: seq<byte>)
    ensures DecodeItems(payload).Diverges? <==> forall n: nat :: LoopAfter(payload, n).At?
    ensures !DecodeItems(payload).Diverges? ==> LoopAfter(payload, |payload| + 1) == Done(DecodeItems(payload))
  {
    forall n: nat ensures DecodeItems(payload).Diverges? ==> LoopAfter(payload, n).At? {
      LoopInvariant(payload, n);
    }
    LoopInvariant(payload, |payload| + 1);
    var s := LoopAfter(payload, |payload| + 1);
    if s.At? {
      ItemStalls(payload[s.pos..]);
    }
  }

  /** The loop never ends exactly when a turn reaches the stalling item. */
  lemma DivergesExactly(payload: seq<byte>)
    ensures DecodeItems(payload).Diverges? <==> exists n: nat :: StalledAt(payload, n)
  {
    if DecodeItems(payload).Diverges? {
      LoopInvariant(payload, |payload| + 1);
      assert StalledAt(payload, |payload| + 1);
    }
    forall n: nat | StalledAt(payload, n) ensures DecodeItems(payload).Diverges? {
      LoopInvariant(payload, n);
      ItemStalls(payload[LoopAfter(payload, n).pos..]);
    }
  }

  /** Checked beforehand: data that nowhere holds those nine bytes is decoded in finitely many turns. */
  lemma NoStallNoHang(data: seq<byte>)
    requires forall k :: 0 <= k <= |data| ==> !(STALL <= data[k..])
    ensures !DecodeList(data).Diverges?
  {
    hide DecodeItems, NextItem;
    if data != [] && data[0] >= 0xc0 && Extent(data, 0xc0).Some? {
      var (from, to) := Extent(data, 0xc0).value;
      if from <= to {
        var payload := data[from..to];
        DivergesExactly(payload);
        forall k | 0 <= k <= |payload| ensures !(STALL <= payload[k..]) {
          StallsOutside(data, from, to, k);
        }
      }
    }
  }

  lemma StallsOutside(data: seq<byte>, from: nat, to: nat, k: nat)
    requires from <= to <= |data| && k <= to - from
    ensures STALL <= data[from..to][k..] ==> STALL <= data[from + k..]
  {
    if to - from - k >= 9 {
      assert data[from..to][k..][..9] == data[from + k..][..9];
    }
  }

  function Empties(n: nat): seq<seq<byte>> {
    if n == 0 then [] else Empties(n - 1) + [[]]
  }

  /** Ten bytes on which the decoder never returns: its loop collects empty items without moving. At top level the
      same item is a panic. */
  lemma HangingInput(n: nat)
    ensures DecodeList([0xc9] + STALL) == Diverges && DecodeList(STALL) == Panic
    ensures LoopAfter(STALL, n) == At(Empties(n), 0)
  {
    var data := [0xc9] + STALL;
    assert data[1..10] == STALL && STALL[0..] == STALL;
    ItemStalls(STALL);
    StallPanics();
    if n > 0 {
      HangingInput(n - 1);
    }
  }

  lemma StallPanics()
    ensures DecodeList(STALL) == Panic
  {
    StallLength(STALL[1..9]);
    assert STALL[1..9] == STALL[1..];
  }

  // ------------------------------------------------------------------
  // Round trip
  // ------------------------------------------------------------------

  lemma ShortExtent(base: byte, body: seq<byte>, rest: seq<byte>)
    requires |body| <= 55 && base <= 192
    ensures Extent([base + |body|] + body + rest, base) == Some((1, 1 + |body|))
  {
    assert ([base + |body|] + body + rest)[0] == base + |body|;
  }

  lemma LongExtent(data: seq<byte>, base: byte, k: nat, n: nat)
    requires 1 <= k <= 8 && base <= 192 && 1 + k + n < WORD && |data| >= 1 + k + n
    requires data[0] == base + 55 + k && FromBe(data[1..1 + k]) == n
    ensures Extent(data, base) == Some((1 + k, 1 + k + n))
  {
    hide FromBe;
    WrapOnce(1 + k + n);
  }

  lemma Pieces(first: byte, len: seq<byte>, body: seq<byte>, rest: seq<byte>)
    ensures var data := [first] + len + body + rest;
            data[0] == first && data[1..1 + |len|] == len && |data| == 1 + |len| + |body| + |rest|
  {
    assert [first] + len + body + rest == [first] + (len + (body + rest));
  }

  lemma LongHeader(base: byte, body: seq<byte>, rest: seq<byte>)
    requires base <= 192 && 55 < |body| < WORD && 1 <= |Be(|body|)| <= 8 && 1 + |Be(|body|)| + |body| < WORD
    ensures var len := Be(|body|);
            Extent([base + 55 + |len|] + len + body + rest, base) == Some((1 + |len|, 1 + |len| + |body|))
  {
    hide Extent, Be, FromBe;
    var len := Be(|body|);
    Pieces(base + 55 + |len|, len, body, rest);
    FromBeUndoesBe(|body|);
    LongExtent([base + 55 + |len|] + len + body + rest, base, |len|, |body|);
  }

  /** The extent read off a header is the payload behind it. */
  lemma ExtentOfHeader(base: byte, body: seq<byte>, rest: seq<byte>)
    requires base + 55 <= 247 && |body| < WORD
    requires |Header(base, base + 55, |body|)| + |body| < WORD
    ensures var h := Header(base, base + 55, |body|);
            h != [] && base <= h[0] <= base + 63
            && Extent(h + body + rest, base) == Some((|h|, |h| + |body|))
  {
    hide Be, FromBe, Extent;
    BeLength8(|body|);
    if |body| > 55 {
      LongHeader(base, body, rest);
    } else {
      ShortExtent(base, body, rest);
    }
  }

  lemma NextItemOfEncoded(b: seq<byte>, rest: seq<byte>)
    requires |b| < WORD && |EncodeBytes(b)| < WORD
    ensures EncodeBytes(b) != [] && NextItem(EncodeBytes(b) + rest) == Ok(Item(b, |EncodeBytes(b)|))
  {
    if |b| == 1 && b[0] < 0x80 {
      assert (b + rest)[0] == b[0] && [b[0]] == b;
    } else {
      ExtentOfHeader(0x80, b, rest);
      var h := Header(0x80, 0xb7, |b|);
      assert (h + b + rest)[|h|..|h| + |b|] == b;
    }
  }

  /** What the bytes of an item are: for a list the whole encoding, prefix included, as far as it was consumed; for a
      string the last bytes consumed, behind a prefix of one byte or, for long strings, the length bytes it announces. */
  lemma ItemBytes(data: seq<byte>)
    requires NextItem(data).Ok?
    ensures var item := NextItem(data).value;
            if data[0] >= 0xc0 then item.bytes == data[..item.consumed]
            else
              var prefix := if data[0] < 0x80 then 0 else if data[0] <= 0xb7 then 1 else 1 + data[0] - 0xb7;
              prefix <= item.consumed && item.bytes == data[prefix..item.consumed]
  {
    hide FromBe;
  }

  /** A nested list followed by anything is read back whole, still encoded: an empty access list is the byte c0. */
  lemma NextItemOfList(items: seq<seq<byte>>, rest: seq<byte>)
    requires Fits(items) && |Payload(items)| < WORD && |EncodeList(items)| < WORD
    ensures NextItem(EncodeList(items) + rest) == Ok(Item(EncodeList(items), |EncodeList(items)|))
    ensures EncodeList([]) == [0xc0]
  {
    var p := Payload(items);
    var h := Header(0xc0, 0xf7, |p|);
    ExtentOfHeader(0xc0, p, rest);
    ShortHeader([], 0xc0, 0xf7);
    hide Header, Be, FromBe, Extent;
    assert (h + p + rest)[..|h| + |p|] == h + p;
    assert EncodeList(items) == h + p;
  }

  lemma ShortHeader(body: seq<byte>, short: byte, long: byte)
    requires |body| <= 55 && short <= 200 && long <= 247
    ensures Header(short, long, |body|) == [short + |body|]
  {}

  lemma {:induction false} DecodeItemsOfPayload(items: seq<seq<byte>>)
    requires Fits(items) && |Payload(items)| < WORD
    ensures DecodeItems(Payload(items)) == Ok(items)
  {
    hide EncodeBytes, NextItem;
    if items != [] {
      var first := EncodeBytes(items[0]);
      NextItemOfEncoded(items[0], Payload(items[1..]));
      assert (first + Payload(items[1..]))[|first|..] == Payload(items[1..]);
      DecodeItemsOfPayload(items[1..]);
      assert [items[0]] + items[1..] == items;
    }
  }

  /** Decoding undoes encoding for every list of byte strings whose encoding fits a word, whatever follows it. */
  lemma RoundTrip(items: seq<seq<byte>>, rest: seq<byte>)
    requires Fits(items) && |Payload(items)| < WORD && |EncodeList(items)| < WORD
    ensures DecodeList(EncodeList(items) + rest) == Ok(items)
  {
    var p := Payload(items);
    var h := Header(0xc0, 0xf7, |p|);
    ExtentOfHeader(0xc0, p, rest);
    assert (h + p + rest)[|h|..|h| + |p|] == p;
    DecodeItemsOfPayload(items);
  }

  /** Hence no encoding is a prefix of another one: the encoder is injective, and the code is prefix-free. */
  lemma EncoderPrefixFree(a: seq<seq<byte>>, b: seq<seq<byte>>)
    requires Fits(a) && |Payload(a)| < WORD && |EncodeList(a)| < WORD
    requires Fits(b) && |Payload(b)| < WORD && |EncodeList(b)| < WORD
    requires EncodeList(a) <= EncodeList(b)
    ensures a == b
  {
    hide EncodeList, DecodeList, Payload;
    var rest := EncodeList(b)[|EncodeList(a)|..];
    assert EncodeList(b) == EncodeList(a) + rest;
    RoundTrip(a, rest);
    RoundTrip(b, []);
    assert EncodeList(b) + [] == EncodeList(b);
  }
}
