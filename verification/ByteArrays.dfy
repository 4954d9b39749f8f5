/** Printing felts for debugging: byte arrays are recognised and printed as text. */
module ByteArrays {
  import opened Options
  import opened Bytes

  type Felt = nat

  const MAGIC: Felt := 0x046a6158a16a947e5916b2a2ca68501a45e93d7110e81aa2d6438b1c57c879a3
  const BYTES_IN_WORD: nat := 31
  const USIZE_MAX: nat := 0xFFFF_FFFF_FFFF_FFFF

  // ----- bytes, most significant first -----

  function ToBE(n: nat, k: nat): (bytes: seq<Byte>)
    ensures |bytes| == k
    decreases k
  {
    if k == 0 then [] else ToBE(n / 256, k - 1) + [n % 256]
  }

  function FromBE(bytes: seq<Byte>): nat {
    if bytes == [] then 0 else 256 * FromBE(bytes[..|bytes| - 1]) + bytes[|bytes| - 1]
  }

  /** The bytes without leading zeros; zero itself is one byte. */
  function Trimmed(n: nat): (bytes: seq<Byte>)
    ensures |bytes| > 0
  {
    if n < 256 then [n] else Trimmed(n / 256) + [n % 256]
  }

  function Zeros(n: nat): (z: seq<Byte>)
    ensures |z| == n
  {
    seq(n, _ => 0)
  }

  lemma Pow256(k: nat)
    requires k > 0
    ensures Pow2(8 * k) == 256 * Pow2(8 * (k - 1))
  {
    Pow2Add(8, 8 * (k - 1));
    assert Pow2(8) == 256 by { assert Pow2(4) == 16; }
  }

  lemma {:induction false} BackToBytes(bytes: seq<Byte>)
    ensures FromBE(bytes) < Pow2(8 * |bytes|) && ToBE(FromBE(bytes), |bytes|) == bytes
  {
    if bytes != [] {
      var init, b := bytes[..|bytes| - 1], bytes[|bytes| - 1];
      BackToBytes(init);
      Pow256(|bytes|);
      QuotientIs(256 * FromBE(init) + b, 256, FromBE(init), b);
    }
  }

  lemma {:induction false} ZeroBytes(k: nat)
    ensures ToBE(0, k) == Zeros(k)
  {
    if k > 0 {
      ZeroBytes(k - 1);
    }
  }

  /** Exactly the numbers that fit have no more bytes than there is room for; the rest is zeros. */
  lemma {:induction false} TrimmedFits(n: nat, k: nat)
    requires k > 0
    ensures |Trimmed(n)| <= k <==> n < Pow2(8 * k)
    ensures |Trimmed(n)| <= k ==> ToBE(n, k) == Zeros(k - |Trimmed(n)|) + Trimmed(n)
    decreases k
  {
    Pow256(k);
    hide Pow2;
    if n < 256 {
      assert Pow2(8 * (k - 1)) >= 1;
      assert n / 256 == 0 && n % 256 == n;
      ZeroBytes(k - 1);
    } else if k == 1 {
      OneByte();
    } else {
      TrimmedFits(n / 256, k - 1);
      Scaled(n, Pow2(8 * (k - 1)));
    }
  }

  lemma OneByte()
    ensures Pow2(8) == 256
  {
    assert Pow2(4) == 16;
  }

  lemma Scaled(n: nat, p: nat)
    ensures n < 256 * p <==> n / 256 < p
  {
  }

  // ----- characters -----

  /** ASCII graphic or ASCII white space. */
  predicate Printable(b: Byte) {
    33 <= b <= 126 || b == 32 || b == 9 || b == 10 || b == 12 || b == 13
  }

  function HexDigit(d: nat): char
    requires d < 16
  {
    "0123456789abcdef"[d]
  }

  function Hex(n: nat): string {
    if n < 16 then [HexDigit(n)] else Hex(n / 16) + [HexDigit(n % 16)]
  }

  /** The value of a digit, and nothing for other characters. */
  function DigitValue(c: char): Option<nat> {
    if '0' <= c <= '9' then Some(c as nat - '0' as nat)
    else if 'a' <= c <= 'f' then Some(c as nat - 'a' as nat + 10)
    else None
  }

  /** The number that lower-case digits write in base 16. */
  function ReadHex(s: string): Option<nat> {
    if s == "" then Some(0)
    else
      var init, last := ReadHex(s[..|s| - 1]), DigitValue(s[|s| - 1]);
      if init.Some? && last.Some? then Some(16 * init.value + last.value) else None
  }

  lemma DigitReads(d: nat)
    requires d < 16
    ensures DigitValue(HexDigit(d)) == Some(d) && (HexDigit(d) == '0' <==> d == 0)
  {
  }

  /** What is written in base 16 is read again, and does not begin with a zero unless it is zero. */
  lemma {:induction false} HexReads(n: nat)
    ensures ReadHex(Hex(n)) == Some(n)
    ensures Hex(n) != "" && (n > 0 ==> Hex(n)[0] != '0') && (n == 0 ==> Hex(n) == "0")
  {
    hide HexDigit, DigitValue;
    DigitReads(n % 16);
    if n >= 16 {
      HexReads(n / 16);
      assert Hex(n)[..|Hex(n)| - 1] == Hex(n / 16);
      assert 16 * (n / 16) + n % 16 == n;
    } else {
      assert Hex(n)[..0] == "";
    }
  }

  /** How one byte of a string is printed. */
  function Shown(b: Byte): string {
    if b == 0 then "\\0"
    else if Printable(b) then [b as char]
    else "\\x" + [HexDigit(b / 16), HexDigit(b % 16)]
  }

  /** A byte is shown as itself if it is a visible character or white space, zero as a backslash and a zero,
      and any other as a backslash, an x and two digits. */
  lemma ShownAs(b: Byte)
    ensures 32 <= b <= 126 || b == 9 || b == 10 || b == 12 || b == 13 ==> Shown(b) == [b as char]
    ensures b == 0 ==> Shown(b) == ['\\', '0']
    ensures b != 0 && !(32 <= b <= 126 || b == 9 || b == 10 || b == 12 || b == 13) ==>
      |Shown(b)| == 4 && Shown(b)[..2] == ['\\', 'x'] && ReadHex(Shown(b)[2..]) == Some(b)
  {
    hide HexDigit, DigitValue;
    if b != 0 && !Printable(b) {
      DigitReads(b / 16);
      DigitReads(b % 16);
      var digits := [HexDigit(b / 16), HexDigit(b % 16)];
      assert Shown(b)[2..] == digits && digits[..1] == [HexDigit(b / 16)] && digits[..1][..0] == "";
      assert ReadHex(digits[..1]) == Some(b / 16);
    }
  }

  function AllShown(bytes: seq<Byte>): string {
    if bytes == [] then "" else AllShown(bytes[..|bytes| - 1]) + Shown(bytes[|bytes| - 1])
  }

  function Text(bytes: seq<Byte>): string {
    seq(|bytes|, i requires 0 <= i < |bytes| => bytes[i] as char)
  }

  lemma {:induction false} PrintableShown(bytes: seq<Byte>)
    requires forall b :: b in bytes ==> Printable(b)
    ensures AllShown(bytes) == Text(bytes)
  {
    if bytes != [] {
      PrintableShown(bytes[..|bytes| - 1]);
      assert Text(bytes) == Text(bytes[..|bytes| - 1]) + [bytes[|bytes| - 1] as char];
    }
  }

  lemma {:induction false} ShownTwice(a: seq<Byte>, b: seq<Byte>)
    ensures AllShown(a + b) == AllShown(a) + AllShown(b)
  {
    hide Shown;
    if b == [] {
      assert a + b == a;
    } else {
      ShownTwice(a, b[..|b| - 1]);
      assert (a + b)[..|a + b| - 1] == a + b[..|b| - 1];
    }
  }

  function Nulls(n: nat): string {
    if n == 0 then "" else Nulls(n - 1) + "\\0"
  }

  lemma {:induction false} NullsShown(n: nat)
    ensures AllShown(Zeros(n)) == Nulls(n)
  {
    if n > 0 {
      NullsShown(n - 1);
      assert Zeros(n)[..n - 1] == Zeros(n - 1);
    }
  }

  /** A word of `length` bytes: what every byte of it shows, leading zeros included. */
  function Word(value: Felt, length: nat): Option<string> {
    if length <= BYTES_IN_WORD && value < Pow2(8 * length) then Some(AllShown(ToBE(value, length))) else None
  }

  /** One more byte is shown. */
  lemma ShownMore(bytes: seq<Byte>, i: nat)
    requires i < |bytes|
    ensures AllShown(bytes[..i + 1]) == AllShown(bytes[..i]) + Shown(bytes[i])
  {
    hide Shown;
    assert bytes[..i + 1][..i] == bytes[..i];
  }

  lemma OneShown(text: string, b: Byte)
    ensures b == 0 ==> text + "\\0" == text + Shown(b)
    ensures b != 0 && Printable(b) ==> text + [b as char] == text + Shown(b)
    ensures b != 0 && !Printable(b) ==> text + "\\x" + [HexDigit(b / 16), HexDigit(b % 16)] == text + Shown(b)
  {
    hide Printable, HexDigit;
    Joined3(text, "\\x", [HexDigit(b / 16), HexDigit(b % 16)]);
  }

  lemma Joined3(a: string, b: string, c: string)
    ensures a + b + c == a + (b + c)
  {
  }

  /** The leading zeros of a word that are not among its trimmed bytes. */
  lemma WordShown(value: Felt, length: nat)
    ensures length == 0 ==> Word(value, length) == if value == 0 then Some("") else None
    ensures length > 31 ==> Word(value, length) == None
    ensures 0 < length <= 31 && |Trimmed(value)| > length ==> Word(value, length) == None
    ensures 0 < length <= 31 && |Trimmed(value)| <= length ==>
      Word(value, length) == Some(Nulls(length - |Trimmed(value)|) + AllShown(Trimmed(value)))
  {
    if 0 < length <= 31 {
      hide Pow2, ToBE, Trimmed, AllShown;
      TrimmedFits(value, length);
      if |Trimmed(value)| <= length {
        NullsShown(length - |Trimmed(value)|);
        ShownTwice(Zeros(length - |Trimmed(value)|), Trimmed(value));
      }
    }
  }

  /** `as_cairo_short_string_ex`. */
  method AsCairoShortStringEx(value: Felt, length: nat) returns (r: Option<string>)
    ensures r == Word(value, length)
  {
    hide Word, AllShown, Shown, Printable, HexDigit, Trimmed, Nulls;
    WordShown(value, length);
    if length == 0 {
      return if value == 0 then Some("") else None;
    }
    if length > 31 {
      return None;
    }
    var bytes := Trimmed(value);
    if |bytes| > length {
      return None;
    }
    var text := "";
    var i := 0;
    NothingShown(bytes);
    while i < |bytes|
      invariant 0 <= i <= |bytes| && text == AllShown(bytes[..i])
    {
      ShownMore(bytes, i);
      OneShown(text, bytes[i]);
      if bytes[i] == 0 {
        text := text + "\\0";
      } else if Printable(bytes[i]) {
        text := text + [bytes[i] as char];
      } else {
        text := text + "\\x" + [HexDigit(bytes[i] / 16), HexDigit(bytes[i] % 16)];
      }
      i := i + 1;
    }
    assert bytes[..i] == bytes;
    return Some(Nulls(length - |bytes|) + text);
  }

  lemma NothingShown(bytes: seq<Byte>)
    ensures AllShown(bytes[..0]) == ""
  {
  }

  /** The first `k` bytes are printable and the others are zeros. */
  predicate TextEnds(bytes: seq<Byte>, k: nat) {
    && k <= |bytes|
    && (forall i :: 0 <= i < k ==> Printable(bytes[i]))
    && (forall i :: k <= i < |bytes| ==> bytes[i] == 0)
  }

  /** The bytes are printable characters and then only zeros. */
  ghost predicate IsText(bytes: seq<Byte>) {
    exists k: nat :: TextEnds(bytes, k)
  }

  /** `as_cairo_short_string`: a felt is text exactly if its bytes are printable characters and then only
      zeros. */
  method AsCairoShortString(value: Felt) returns (r: Option<string>)
    ensures r.Some? <==> IsText(Trimmed(value))
    ensures forall k: nat :: TextEnds(Trimmed(value), k) ==> r == Some(Text(Trimmed(value)[..k]))
  {
    hide Printable, Trimmed, TextEnds, Text, IsText;
    var bytes := Trimmed(value);
    var text, isEnd := "", false;
    ghost var end: nat := 0;
    var i := 0;
    NothingSeen(bytes);
    while i < |bytes|
      invariant 0 <= i <= |bytes| && end <= i && (isEnd <==> end < i)
      invariant TextEnds(bytes[..i], end) && text == Text(bytes[..end])
    {
      if bytes[i] == 0 {
        ZeroSeen(bytes, i, end);
        isEnd := true;
      } else if isEnd || !Printable(bytes[i]) {
        NoText(bytes, i, end);
        return None;
      } else {
        CharacterSeen(bytes, i);
        text := text + [bytes[i] as char];
        end := i + 1;
      }
      i := i + 1;
    }
    assert bytes[..i] == bytes;
    AllSeen(bytes, end);
    return Some(text);
  }

  lemma NothingSeen(bytes: seq<Byte>)
    ensures TextEnds(bytes[..0], 0) && Text(bytes[..0]) == ""
  {
  }

  lemma ZeroSeen(bytes: seq<Byte>, i: nat, end: nat)
    requires i < |bytes| && TextEnds(bytes[..i], end) && bytes[i] == 0
    ensures TextEnds(bytes[..i + 1], end)
  {
    assert forall j :: 0 <= j < i ==> bytes[..i + 1][j] == bytes[..i][j];
  }

  lemma CharacterSeen(bytes: seq<Byte>, i: nat)
    requires i < |bytes| && TextEnds(bytes[..i], i) && Printable(bytes[i])
    ensures TextEnds(bytes[..i + 1], i + 1)
    ensures Text(bytes[..i + 1]) == Text(bytes[..i]) + [bytes[i] as char]
  {
    hide Printable;
    assert forall j :: 0 <= j < i ==> bytes[..i + 1][j] == bytes[..i][j];
  }

  /** After a zero, or at something that is not printable, there is no text any more. */
  lemma NoText(bytes: seq<Byte>, i: nat, end: nat)
    requires i < |bytes| && TextEnds(bytes[..i], end) && bytes[i] != 0 && (end < i || !Printable(bytes[i]))
    ensures !IsText(bytes) && forall k: nat :: !TextEnds(bytes, k)
  {
    NotPrintable();
    hide Printable;
    forall k: nat ensures !TextEnds(bytes, k) {
      if i < k <= |bytes| {
        assert end < i ==> bytes[..i][end] == bytes[end];
        assert !Printable(bytes[if end < i then end else i]);
      }
    }
  }

  lemma AllSeen(bytes: seq<Byte>, end: nat)
    requires TextEnds(bytes, end)
    ensures IsText(bytes) && forall k: nat :: TextEnds(bytes, k) ==> k == end
  {
    TextEndsOnce(bytes, end);
    hide TextEnds;
  }

  lemma NotPrintable()
    ensures !Printable(0)
  {
  }

  lemma EndsApart(bytes: seq<Byte>, k: nat, end: nat)
    requires TextEnds(bytes, k) && k < end
    ensures !TextEnds(bytes, end)
  {
    if end <= |bytes| { assert !Printable(bytes[k]); }
  }

  lemma TextEndsOnce(bytes: seq<Byte>, end: nat)
    requires TextEnds(bytes, end)
    ensures forall k: nat :: TextEnds(bytes, k) ==> k == end
  {
    hide TextEnds;
    forall k: nat | TextEnds(bytes, k) ensures k == end {
      if k < end { EndsApart(bytes, k, end); } else if end < k { EndsApart(bytes, end, k); }
    }
  }

  /** A felt as a number, and as text if it reads as one. */
  ghost function ShortString(value: Felt): string {
    "0x" + Hex(value) +
    if k: nat :| TextEnds(Trimmed(value), k) then " ('" + Text(Trimmed(value)[..k]) + "')" else ""
  }

  method FormatShortString(value: Felt) returns (s: string)
    ensures s == ShortString(value)
  {
    var text := AsCairoShortString(value);
    s := "0x" + Hex(value);
    if text.Some? {
      s := s + " ('" + text.value + "')";
    }
  }

  // ----- byte arrays among felts -----

  /** From `pos` on there are a word count, that many words, a last word, and its length. */
  ghost predicate Parses(felts: seq<Felt>, pos: nat) {
    && pos < |felts| && felts[pos] <= USIZE_MAX && pos + felts[pos] + 3 <= |felts|
    && (forall i :: pos < i <= pos + felts[pos] ==> Word(felts[i], BYTES_IN_WORD).Some?)
    && felts[pos + felts[pos] + 2] <= USIZE_MAX
    && Word(felts[pos + felts[pos] + 1], felts[pos + felts[pos] + 2]).Some?
  }

  /** The text of the first `k` words. */
  ghost function Words(felts: seq<Felt>, pos: nat, k: nat): string
    requires pos + k <= |felts| && forall i :: pos <= i < pos + k ==> Word(felts[i], BYTES_IN_WORD).Some?
  {
    if k == 0 then "" else Words(felts, pos, k - 1) + Word(felts[pos + k - 1], BYTES_IN_WORD).value
  }

  ghost function Parsed(felts: seq<Felt>, pos: nat): string
    requires Parses(felts, pos)
  {
    Words(felts, pos + 1, felts[pos]) + Word(felts[pos + felts[pos] + 1], felts[pos + felts[pos] + 2]).value
  }

  /** Reads a byte array and moves past it, or finds none and stays. */
  method TryFormatString(felts: seq<Felt>, pos: nat) returns (r: Option<string>, next: nat)
    requires pos <= |felts|
    ensures r.Some? <==> Parses(felts, pos)
    ensures r.Some? ==> r.value == Parsed(felts, pos) && next == pos + felts[pos] + 3 <= |felts|
    ensures r.None? ==> next == pos
  {
    hide Word;
    next := pos;
    if pos >= |felts| || felts[pos] > USIZE_MAX {
      return None, pos;
    }
    var count := felts[pos];
    var at := pos + 1;
    var taken := if at + count <= |felts| then count else |felts| - at;
    var text := "";
    if at + taken >= |felts| || at + taken + 1 >= |felts| || felts[at + taken + 1] > USIZE_MAX {
      return None, pos;
    }
    var i := 0;
    while i < taken
      invariant 0 <= i <= taken
      invariant forall j :: at <= j < at + i ==> Word(felts[j], BYTES_IN_WORD).Some?
      invariant text == Words(felts, at, i)
    {
      var word := AsCairoShortStringEx(felts[at + i], BYTES_IN_WORD);
      if word.None? {
        return None, pos;
      }
      text := text + word.value;
      i := i + 1;
    }
    var pending := AsCairoShortStringEx(felts[at + taken], felts[at + taken + 1]);
    if pending.None? {
      return None, pos;
    }
    return Some(text + pending.value), at + taken + 2;
  }

  datatype Item = Item(text: string, isString: bool)

  /** The item at a position: a byte array after its magic felt, and otherwise one felt, also when what
      follows the magic is no byte array. */
  ghost function ItemAt(felts: seq<Felt>, pos: nat): Item
    requires pos < |felts|
  {
    if felts[pos] == MAGIC && Parses(felts, pos + 1) then Item(Parsed(felts, pos + 1), true)
    else Item(ShortString(felts[pos]), false)
  }

  /** Where the item at a position ends. */
  ghost function ItemEnd(felts: seq<Felt>, pos: nat): (next: nat)
    requires pos < |felts|
    ensures pos < next <= |felts|
  {
    if felts[pos] == MAGIC && Parses(felts, pos + 1) then pos + felts[pos + 1] + 4 else pos + 1
  }

  method FormatNextItem(felts: seq<Felt>, pos: nat) returns (item: Option<Item>, next: nat)
    requires pos <= |felts|
    ensures item.None? <==> pos == |felts|
    ensures item.None? ==> next == pos
    ensures item.Some? ==> item.value == ItemAt(felts, pos) && next == ItemEnd(felts, pos)
  {
    hide Parses, Parsed, ShortString;
    if pos == |felts| {
      return None, pos;
    }
    if felts[pos] == MAGIC {
      var text, after := TryFormatString(felts, pos + 1);
      if text.Some? {
        ParsedLength(felts, pos + 1);
        return Some(Item(text.value, true)), after;
      }
    }
    var text := FormatShortString(felts[pos]);
    return Some(Item(text, false)), pos + 1;
  }

  lemma ParsedLength(felts: seq<Felt>, pos: nat)
    requires Parses(felts, pos)
    ensures pos < |felts|
  {
  }

  /** All items from a position on, and the felts each one comes from. */
  ghost function Items(felts: seq<Felt>, pos: nat): seq<Item>
    requires pos <= |felts|
    decreases |felts| - pos
  {
    if pos == |felts| then [] else [ItemAt(felts, pos)] + Items(felts, ItemEnd(felts, pos))
  }

  ghost function Slices(felts: seq<Felt>, pos: nat): seq<seq<Felt>>
    requires pos <= |felts|
    decreases |felts| - pos
  {
    if pos == |felts| then [] else [felts[pos..ItemEnd(felts, pos)]] + Slices(felts, ItemEnd(felts, pos))
  }

  function Joined<T>(parts: seq<seq<T>>): seq<T> {
    if parts == [] then [] else parts[0] + Joined(parts[1..])
  }

  /** The items come from slices that are one after the other, none of them empty, and together are the
      input. */
  lemma {:induction false} SlicesPartition(felts: seq<Felt>, pos: nat)
    requires pos <= |felts|
    ensures Joined(Slices(felts, pos)) == felts[pos..]
    ensures |Slices(felts, pos)| == |Items(felts, pos)|
    ensures forall i :: 0 <= i < |Slices(felts, pos)| ==> Slices(felts, pos)[i] != []
    decreases |felts| - pos
  {
    hide ItemAt, Parses;
    if pos < |felts| {
      var next := ItemEnd(felts, pos);
      SlicesPartition(felts, next);
      assert Slices(felts, pos)[1..] == Slices(felts, next);
      assert felts[pos..next] + felts[next..] == felts[pos..];
    }
  }

  function Line(item: Item): string {
    if item.isString then item.text + "\n" else "[DEBUG]\t" + item.text + "\n"
  }

  function Lines(items: seq<Item>): string {
    if items == [] then "" else Lines(items[..|items| - 1]) + Line(items[|items| - 1])
  }

  /** Formats all felts: a single byte array as it is, and otherwise each item on a line. */
  method FormatForDebug(felts: seq<Felt>) returns (s: string)
    ensures var items := Items(felts, 0);
            s == if |items| == 1 && items[0].isString then items[0].text else Lines(items)
  {
    hide ItemAt, ItemEnd, Lines;
    var list: seq<Item> := [];
    var pos := 0;
    while true
      invariant 0 <= pos <= |felts| && list + Items(felts, pos) == Items(felts, 0)
      decreases |felts| - pos
    {
      var item, next := FormatNextItem(felts, pos);
      if item.None? {
        break;
      }
      OneMoreItem(list, item.value, Items(felts, next));
      list := list + [item.value];
      pos := next;
    }
    assert list == Items(felts, 0);
    if |list| == 1 && list[0].isString {
      return list[0].text;
    }
    s := JoinLines(list);
  }

  lemma OneMoreItem<T>(list: seq<T>, item: T, rest: seq<T>)
    ensures list + ([item] + rest) == list + [item] + rest
  {
  }

  method JoinLines(list: seq<Item>) returns (s: string)
    ensures s == Lines(list)
  {
    s := "";
    var i := 0;
    while i < |list|
      invariant 0 <= i <= |list| && s == Lines(list[..i])
    {
      assert list[..i + 1][..i] == list[..i];
      s := s + if list[i].isString then list[i].text + "\n" else "[DEBUG]\t" + list[i].text + "\n";
      i := i + 1;
    }
    assert list[..i] == list;
  }

  // ----- what a byte array looks like -----

  /** The words of `bytes`, 31 at a time. */
  function FullWords(bytes: seq<Byte>): seq<Felt>
    decreases |bytes|
  {
    if |bytes| < BYTES_IN_WORD then [] else [FromBE(bytes[..BYTES_IN_WORD])] + FullWords(bytes[BYTES_IN_WORD..])
  }

  function Pending(bytes: seq<Byte>): seq<Byte>
    decreases |bytes|
  {
    if |bytes| < BYTES_IN_WORD then bytes else Pending(bytes[BYTES_IN_WORD..])
  }

  /** How the language serialises a byte array. */
  function Serialized(bytes: seq<Byte>): seq<Felt> {
    [MAGIC, |FullWords(bytes)|] + FullWords(bytes) + [FromBE(Pending(bytes)), |Pending(bytes)|]
  }

  lemma WordOfBytes(bytes: seq<Byte>)
    requires |bytes| <= BYTES_IN_WORD
    ensures Word(FromBE(bytes), |bytes|) == Some(AllShown(bytes))
  {
    BackToBytes(bytes);
  }

  lemma {:induction false} PendingShort(bytes: seq<Byte>)
    ensures |Pending(bytes)| < BYTES_IN_WORD
    decreases |bytes|
  {
    if |bytes| >= BYTES_IN_WORD {
      PendingShort(bytes[BYTES_IN_WORD..]);
    }
  }

  lemma {:induction false} WordsShown(felts: seq<Felt>, at: nat, bytes: seq<Byte>)
    requires at + |FullWords(bytes)| <= |felts| && felts[at..at + |FullWords(bytes)|] == FullWords(bytes)
    ensures forall i :: at <= i < at + |FullWords(bytes)| ==> Word(felts[i], BYTES_IN_WORD).Some?
    ensures Words(felts, at, |FullWords(bytes)|) + AllShown(Pending(bytes)) == AllShown(bytes)
    decreases |bytes|
  {
    hide Word, FromBE, AllShown, Words, FullWords, Pending;
    if |bytes| >= BYTES_IN_WORD {
      var first, rest := bytes[..BYTES_IN_WORD], bytes[BYTES_IN_WORD..];
      SplitFirst(bytes);
      FirstWord(felts, at, FromBE(first), FullWords(rest));
      WordsShown(felts, at + 1, rest);
      WordOfBytes(first);
      MoreWords(felts, at, |FullWords(rest)|, first, rest, AllShown(Pending(rest)));
    } else {
      NoWords(felts, at, bytes);
    }
  }

  lemma SplitFirst(bytes: seq<Byte>)
    requires |bytes| >= BYTES_IN_WORD
    ensures var first, rest := bytes[..BYTES_IN_WORD], bytes[BYTES_IN_WORD..];
            FullWords(bytes) == [FromBE(first)] + FullWords(rest) && Pending(bytes) == Pending(rest) &&
                first + rest == bytes
  {
    hide FromBE;
  }

  lemma NoWords(felts: seq<Felt>, at: nat, bytes: seq<Byte>)
    requires |bytes| < BYTES_IN_WORD && at <= |felts|
    ensures FullWords(bytes) == [] && Words(felts, at, 0) + AllShown(Pending(bytes)) == AllShown(bytes)
  {
    hide AllShown;
  }

  lemma MoreWords(felts: seq<Felt>, at: nat, n: nat, first: seq<Byte>, rest: seq<Byte>, pending: string)
    requires at + n + 1 <= |felts| && Word(felts[at], BYTES_IN_WORD) == Some(AllShown(first))
    requires forall i :: at + 1 <= i < at + 1 + n ==> Word(felts[i], BYTES_IN_WORD).Some?
    requires Words(felts, at + 1, n) + pending == AllShown(rest)
    ensures forall i :: at <= i < at + n + 1 ==> Word(felts[i], BYTES_IN_WORD).Some?
    ensures Words(felts, at, n + 1) + pending == AllShown(first + rest)
  {
    hide Word, AllShown, Words;
    WordsFromFirst(felts, at, n);
    ShownTwice(first, rest);
    Regroup(AllShown(first), Words(felts, at + 1, n), pending);
  }

  lemma Regroup(a: string, b: string, c: string)
    ensures a + b + c == a + (b + c)
  {
  }

  lemma FirstWord(felts: seq<Felt>, at: nat, first: Felt, rest: seq<Felt>)
    requires at + 1 + |rest| <= |felts| && felts[at..at + 1 + |rest|] == [first] + rest
    ensures felts[at] == first && felts[at + 1..at + 1 + |rest|] == rest
  {
    assert felts[at] == felts[at..at + 1 + |rest|][0];
    assert felts[at + 1..at + 1 + |rest|] == felts[at..at + 1 + |rest|][1..];
  }

  lemma {:induction false} WordsFromFirst(felts: seq<Felt>, at: nat, n: nat)
    requires at + n + 1 <= |felts| && forall i :: at <= i < at + n + 1 ==> Word(felts[i], BYTES_IN_WORD).Some?
    ensures Words(felts, at, n + 1) == Word(felts[at], BYTES_IN_WORD).value + Words(felts, at + 1, n)
  {
    hide Word;
    if n > 0 {
      WordsFromFirst(felts, at, n - 1);
    } else {
      assert Words(felts, at, 0) == "";
    }
  }

  /** A serialised byte array, wherever it stands, is read whole and printed byte by byte. */
  lemma SerializedParses(before: seq<Felt>, bytes: seq<Byte>, rest: seq<Felt>)
    requires |FullWords(bytes)| <= USIZE_MAX
    ensures var felts, at := before + Serialized(bytes) + rest, |before| + 1;
            && felts[|before|] == MAGIC && Parses(felts, at) && Parsed(felts, at) == AllShown(bytes)
            && at + felts[at] + 3 == |before| + |Serialized(bytes)|
  {
    var felts, at, n := before + Serialized(bytes) + rest, |before| + 1, |FullWords(bytes)|;
    hide FromBE, AllShown, Word;
    assert felts[|before|] == MAGIC && felts[at] == n;
    assert felts[at + 1..at + 1 + n] == FullWords(bytes);
    assert felts[at + n + 1] == FromBE(Pending(bytes)) && felts[at + n + 2] == |Pending(bytes)|;
    WordsShown(felts, at + 1, bytes);
    PendingShort(bytes);
    WordOfBytes(Pending(bytes));
  }

  /** Printable text comes out as it went in, and the next item begins right after it. */
  lemma PrintsItself(before: seq<Felt>, bytes: seq<Byte>, rest: seq<Felt>)
    requires |FullWords(bytes)| <= USIZE_MAX && forall b :: b in bytes ==> Printable(b)
    ensures var felts := before + Serialized(bytes) + rest;
            && ItemAt(felts, |before|) == Item(Text(bytes), true)
            && felts[ItemEnd(felts, |before|)..] == rest
  {
    hide Parses, Parsed, AllShown, Text, Printable, FullWords, Pending, FromBE;
    var felts, at := before + Serialized(bytes) + rest, |before| + 1;
    SerializedParses(before, bytes, rest);
    PrintableShown(bytes);
    ParsedLength(felts, at);
    assert felts == (before + Serialized(bytes)) + rest;
  }

  /** Text that stands alone is printed without anything around it. */
  lemma PrintedAlone(bytes: seq<Byte>)
    requires |FullWords(bytes)| <= USIZE_MAX && forall b :: b in bytes ==> Printable(b)
    ensures Items(Serialized(bytes), 0) == [Item(Text(bytes), true)]
  {
    hide ItemAt, ItemEnd, Serialized, Text, FullWords, Printable;
    assert [] + Serialized(bytes) + [] == Serialized(bytes);
    PrintsItself([], bytes, []);
    var felts := Serialized(bytes);
    SerializedLength(bytes);
    assert ItemEnd(felts, 0) == |felts|;
    assert Items(felts, |felts|) == [];
  }

  lemma SerializedLength(bytes: seq<Byte>)
    ensures |Serialized(bytes)| > 0
  {
  }

  // ----- an example -----

  lemma HexMore(n: nat, d: nat)
    requires n > 0 && d < 16
    ensures Hex(16 * n + d) == Hex(n) + [HexDigit(d)]
  {
    assert (16 * n + d) / 16 == n && (16 * n + d) % 16 == d;
  }

  lemma OneDigit(d: nat)
    requires d < 16
    ensures Hex(d) == [HexDigit(d)]
  {
  }

  lemma HiHex()
    ensures Hex(0x4869) == "4869" && Hex(1) == "1"
  {
    hide Hex;
    OneDigit(1);
    OneDigit(4);
    HexMore(4, 8);
    HexMore(0x48, 6);
    HexMore(0x486, 9);
  }

  lemma HiBytes()
    ensures Trimmed(0x4869) == [0x48, 0x69] && Trimmed(1) == [1]
    ensures TextEnds([0x48, 0x69], 2) && Text([0x48, 0x69][..2]) == "Hi"
  {
    assert Trimmed(0x48) == [0x48];
    assert [0x48, 0x69][..2] == [0x48, 0x69];
  }

  lemma NoTextIn(bytes: seq<Byte>)
    requires bytes != [] && bytes[0] != 0 && !Printable(bytes[0])
    ensures forall k: nat :: !TextEnds(bytes, k)
  {
  }

  /** The two letters H and i as a felt on its own, and a felt that is no text. */
  lemma HiShown()
    ensures ShortString(0x4869) == "0x4869 ('Hi')" && ShortString(1) == "0x1"
  {
    HiHex();
    HiBytes();
    TextEndsOnce([0x48, 0x69], 2);
    NoTextIn([1]);
    hide Hex, Trimmed, TextEnds, Text;
  }

  lemma HiWord()
    ensures Word(0x4869, 2) == Some("Hi")
  {
    assert ToBE(0x48, 1) == [0x48] && ToBE(0x4869, 2) == [0x48, 0x69];
    OneByte();
    Pow2Add(8, 8);
    hide Pow2, ToBE;
    assert [0x48, 0x69][..1] == [0x48] && [0x48][..0] == [];
    assert AllShown([0x48]) == "H";
    assert AllShown([0x48, 0x69]) == "Hi";
  }

  lemma LastItem(felts: seq<Felt>, pos: nat)
    requires pos + 1 == |felts| && felts[pos] != MAGIC
    ensures Items(felts, pos) == [Item(ShortString(felts[pos]), false)]
  {
    hide ShortString, Parses;
    assert Items(felts, pos + 1) == [];
  }

  lemma HiArray(felts: seq<Felt>)
    requires |felts| >= 4
    requires felts[0] == 0x046a6158a16a947e5916b2a2ca68501a45e93d7110e81aa2d6438b1c57c879a3
    requires felts[1] == 0 && felts[2] == 0x4869 && felts[3] == 2
    ensures Items(felts, 0) == [Item("Hi", true)] + Items(felts, 4)
  {
    HiWord();
    hide Word, ShortString;
    assert Words(felts, 2, 0) == "";
    assert Parses(felts, 1) && Parsed(felts, 1) == "Hi";
  }

  lemma TwoLines(a: Item, b: Item)
    ensures Lines([a]) == Line(a) && Lines([a, b]) == Line(a) + Line(b)
  {
    hide Line;
    assert [a][..0] == [] && [a, b][..1] == [a];
    assert "" + Line(a) == Line(a);
  }

  /** A felt that is a short text, and one that is not. */
  lemma FeltsPrinted()
    ensures Lines(Items([0x4869, 1], 0)) == "[DEBUG]\t" + "0x4869 ('Hi')" + "\n" + ("[DEBUG]\t" + "0x1" + "\n")
  {
    hide Items, Lines, ShortString;
    TwoItems([0x4869, 1]);
    HiShown();
    TwoLines(Item("0x4869 ('Hi')", false), Item("0x1", false));
  }

  /** A byte array, alone and followed by a felt. */
  lemma ByteArrayPrinted(felts: seq<Felt>)
    requires |felts| == 4 || (|felts| == 5 && felts[4] == 1)
    requires felts[0] == 0x046a6158a16a947e5916b2a2ca68501a45e93d7110e81aa2d6438b1c57c879a3
    requires felts[1] == 0 && felts[2] == 0x4869 && felts[3] == 2
    ensures |felts| == 4 ==> Items(felts, 0) == [Item("Hi", true)]
    ensures |felts| == 5 ==> Lines(Items(felts, 0)) == "Hi" + "\n" + ("[DEBUG]\t" + "0x1" + "\n")
  {
    hide Items, Lines, ShortString;
    var text, one := Item("Hi", true), Item("0x1", false);
    HiArray(felts);
    HiShown();
    if |felts| == 4 {
      NoItems(felts);
    } else {
      LastItem(felts, 4);
      TwoLines(text, one);
      assert [text] + [one] == [text, one];
    }
  }

  lemma NoItems(felts: seq<Felt>)
    ensures Items(felts, |felts|) == []
  {
  }

  lemma TwoItems(felts: seq<Felt>)
    requires |felts| == 2 && felts[0] != MAGIC && felts[1] != MAGIC
    ensures Items(felts, 0) == [Item(ShortString(felts[0]), false), Item(ShortString(felts[1]), false)]
  {
    LastItem(felts, 1);
    hide ShortString, Parses;
  }
}
