/**
  repositories/types/chat_id.rs: the key under which a chat's file system and
  session are stored, its conversions to and from Telegram's signed ids, its
  stable-memory encoding, its decimal display, and how an update is routed
  to it.
 */
module ChatIds {
  import opened Outcome
  import opened Updates

  const TwoTo64: int := 0x1_0000_0000_0000_0000

  type u64 = x: int | 0 <= x < TwoTo64

  type byte = x: int | 0 <= x < 256

  datatype ChatId = ChatId(value: u64)

  /** `From<i64>`: `value as u64`, the two's-complement reinterpretation. */
  function FromI64(v: i64): (r: ChatId)
    ensures (r.value - v) % TwoTo64 == 0
    ensures v >= 0 ==> r.value == v
  {
    if v >= 0 then ChatId(v) else ChatId(v + TwoTo64)
  }

  /** `into_tg_chat_id`: `value as i64`, back to a signed id. */
  function IntoTgChatId(c: ChatId): (r: i64)
    ensures (r - c.value) % TwoTo64 == 0
    ensures c.value < TwoTo63 ==> r == c.value
  {
    if c.value < TwoTo63 then c.value else c.value - TwoTo64
  }

  /** Every signed id, negative ones included, survives the trip through a chat id. */
  lemma SignedRoundTrip(v: i64)
    ensures IntoTgChatId(FromI64(v)) == v
  {
  }

  /** Every chat id survives the trip through a signed id. */
  lemma UnsignedRoundTrip(c: ChatId)
    ensures FromI64(IntoTgChatId(c)) == c
  {
  }

  lemma ConversionExamples()
    ensures FromI64(123) == ChatId(123)
    ensures IntoTgChatId(ChatId(123)) == 123
    ensures FromI64(-1) == ChatId(TwoTo64 - 1)
  {
  }

  // ---------------------------------------------------------------------
  // Stable-memory encoding
  // ---------------------------------------------------------------------

  function Pow256(k: nat): (r: nat)
    ensures r > 0
  {
    if k == 0 then 1 else 256 * Pow256(k - 1)
  }

  /** The `k` low-order base-256 digits of `n`, most significant first. */
  function BigEndian(n: nat, k: nat): (r: seq<byte>)
    ensures |r| == k
  {
    if k == 0 then [] else BigEndian(n / 256, k - 1) + [n % 256]
  }

  /** The number a big-endian byte string denotes. */
  function FromBigEndian(bytes: seq<byte>): (r: nat)
    ensures r < Pow256(|bytes|)
  {
    if |bytes| == 0 then 0
    else
      var high := FromBigEndian(bytes[..|bytes| - 1]);
      var low := bytes[|bytes| - 1];
      assert high * 256 + low < 256 * Pow256(|bytes| - 1) by {
        assert high <= Pow256(|bytes| - 1) - 1;
      }
      high * 256 + low
  }

  lemma {:induction false} FromBigEndianOfBigEndian(n: nat, k: nat)
    requires n < Pow256(k)
    ensures FromBigEndian(BigEndian(n, k)) == n
  {
    if k > 0 {
      var bytes := BigEndian(n, k);
      assert bytes[..k - 1] == BigEndian(n / 256, k - 1);
      FromBigEndianOfBigEndian(n / 256, k - 1);
    }
  }

  lemma {:induction false} BigEndianOfFromBigEndian(bytes: seq<byte>)
    ensures BigEndian(FromBigEndian(bytes), |bytes|) == bytes
  {
    if |bytes| > 0 {
      var k := |bytes|;
      var high := FromBigEndian(bytes[..k - 1]);
      var n := FromBigEndian(bytes);
      assert n / 256 == high && n % 256 == bytes[k - 1];
      BigEndianOfFromBigEndian(bytes[..k - 1]);
      assert bytes == bytes[..k - 1] + [bytes[k - 1]];
    }
  }

  lemma TwoTo64IsPow256()
    ensures Pow256(8) == TwoTo64
  {
  }

  /**
    `Storable::to_bytes`: the value's `u64` encoding, which is taken to be
    its eight bytes in big-endian order.
   */
  function ToBytes(c: ChatId): (r: seq<byte>)
    ensures |r| == 8
    ensures FromBigEndian(r) == c.value
  {
    TwoTo64IsPow256();
    FromBigEndianOfBigEndian(c.value, 8);
    BigEndian(c.value, 8)
  }

  /** `Storable::from_bytes` on an eight-byte encoding. */
  function FromBytes(bytes: seq<byte>): (r: ChatId)
    requires |bytes| == 8
    ensures ToBytes(r) == bytes
  {
    TwoTo64IsPow256();
    BigEndianOfFromBigEndian(bytes);
    ChatId(FromBigEndian(bytes))
  }

  /** Decoding an encoded chat id gives it back. */
  lemma BytesRoundTrip(c: ChatId)
    ensures FromBytes(ToBytes(c)) == c
  {
    TwoTo64IsPow256();
    FromBigEndianOfBigEndian(c.value, 8);
  }

  /** Distinct chat ids are stored under distinct keys. */
  lemma ToBytesInjective(a: ChatId, b: ChatId)
    ensures ToBytes(a) == ToBytes(b) ==> a == b
  {
    if ToBytes(a) == ToBytes(b) {
      BytesRoundTrip(a);
      BytesRoundTrip(b);
    }
  }

  // ---------------------------------------------------------------------
  // Display
  // ---------------------------------------------------------------------

  function DigitChar(d: nat): (r: char)
    requires d < 10
    ensures '0' <= r <= '9'
  {
    (d + '0' as int) as char
  }

  /** Decimal digits of `n`, without leading zeros. */
  function Decimal(n: nat): (r: string)
    ensures |r| > 0
    ensures forall i :: 0 <= i < |r| ==> '0' <= r[i] <= '9'
  {
    if n < 10 then [DigitChar(n)] else Decimal(n / 10) + [DigitChar(n % 10)]
  }

  /** The number a string of decimal digits denotes. */
  function ParseDecimal(s: string): nat
    requires forall i :: 0 <= i < |s| ==> '0' <= s[i] <= '9'
  {
    if |s| == 0 then 0
    else 10 * ParseDecimal(s[..|s| - 1]) + (s[|s| - 1] as int - '0' as int)
  }

  /** `Display`: the inner unsigned value in decimal. */
  function Display(c: ChatId): (r: string)
    ensures |r| > 0 && (r[0] == '0' ==> c.value == 0)
    ensures forall i :: 0 <= i < |r| ==> '0' <= r[i] <= '9'
  {
    DecimalNoLeadingZero(c.value);
    Decimal(c.value)
  }

  lemma {:induction false} DecimalNoLeadingZero(n: nat)
    ensures Decimal(n)[0] == '0' ==> n == 0
  {
    if n >= 10 {
      DecimalNoLeadingZero(n / 10);
    }
  }

  lemma {:induction false} ParseDecimalOfDecimal(n: nat)
    ensures ParseDecimal(Decimal(n)) == n
  {
    if n >= 10 {
      var s := Decimal(n);
      assert s[..|s| - 1] == Decimal(n / 10);
      ParseDecimalOfDecimal(n / 10);
    }
  }

  /** The displayed text denotes the chat id's value. */
  lemma DisplayRoundTrip(c: ChatId)
    ensures ParseDecimal(Display(c)) == c.value
  {
    ParseDecimalOfDecimal(c.value);
  }

  lemma DisplayExample()
    ensures Display(ChatId(123)) == "123"
  {
  }

  // ---------------------------------------------------------------------
  // Routing an update
  // ---------------------------------------------------------------------

  const MessageNotFound: string := "Message not found in callback query"
  const UnsupportedUpdate: string := "Unsupported update content"

  /** The chat a callback's message belongs to, whether it is accessible or not. */
  function CallbackChat(m: CallbackMessage): i64 {
    match m
    case Accessible(msg) => msg.chatId
    case Inaccessible(chat, _) => chat
  }

  /** `TryFrom<&UpdateContent> for ChatId`. */
  function ChatIdOf(u: UpdateContent): (r: Result<ChatId, string>)
    ensures u.MessageUpdate? ==> r == Ok(FromI64(u.message.chatId))
    ensures u.CallbackUpdate? && u.query.message.Some? ==> r == Ok(FromI64(CallbackChat(u.query.message.value)))
    ensures u.CallbackUpdate? && u.query.message.None? ==> r == Err(MessageNotFound)
    ensures u.OtherUpdate? ==> r == Err(UnsupportedUpdate)
  {
    match u
    case MessageUpdate(m) => Ok(FromI64(m.chatId))
    case CallbackUpdate(q) =>
      var m :- if q.message.Some? then Ok(q.message.value) else Err(MessageNotFound);
      Ok(FromI64(CallbackChat(m)))
    case OtherUpdate => Err(UnsupportedUpdate)
  }

  /** Routing fails exactly for callbacks without a message and for other kinds of update. */
  lemma ChatIdOfFails(u: UpdateContent)
    ensures ChatIdOf(u).Err? <==> u.OtherUpdate? || (u.CallbackUpdate? && u.query.message.None?)
  {
  }
}
