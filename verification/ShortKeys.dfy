/** The short-key generator: eleven base-62 digits of a 256-bit hash, least significant first. */
module ShortKeys {
  import Decimal

  const SHORT_KEY_LENGTH: nat := 11
  const TWO_TO_THE_256: nat := 0x1_0000_0000_0000_0000_0000_0000_0000_0000_0000_0000_0000_0000_0000_0000_0000_0000

  /** A SHA-256 digest read as a big-endian number. */
  type Digest = n: nat | n < TWO_TO_THE_256

  /** The hash function. Nothing is assumed about it: it may collide. */
  type Hash = string -> Digest

  /** The alphabet: the digits, then the lower-case letters, then the upper-case ones. */
  function Letter(d: nat): char
    requires d < 62
  {
    if d < 10 then ('0' as int + d) as char
    else if d < 36 then ('a' as int + d - 10) as char
    else ('A' as int + d - 36) as char
  }

  /** The program's alphabet. */
  const ALPHABET: string := "0123456789" + "abcdefghijklmnopqrstuvwxyz" + "ABCDEFGHIJKLMNOPQRSTUVWXYZ"

  lemma LetterIsAlphabet(d: nat)
    requires d < 62
    ensures Letter(d) == ALPHABET[d]
  {
    if d < 10 {
      assert InOrder("0123456789", '0');
    } else if d < 36 {
      assert InOrder("abcdefghijklmnopqrstuvwxyz", 'a');
    } else {
      assert InOrder("ABCDEFGHIJKLMNOPQRSTUVWXYZ", 'A');
    }
  }

  /** Consecutive characters. */
  predicate InOrder(s: string, first: char) {
    forall i | 0 <= i < |s| :: s[i] as int == first as int + i
  }

  predicate IsLetter(c: char) {
    '0' <= c <= '9' || 'a' <= c <= 'z' || 'A' <= c <= 'Z'
  }

  /** The position of a letter in the alphabet. */
  function DigitOf(c: char): int {
    if '0' <= c <= '9' then c as int - '0' as int
    else if 'a' <= c <= 'z' then 10 + (c as int - 'a' as int)
    else if 'A' <= c <= 'Z' then 36 + (c as int - 'A' as int)
    else 0
  }

  function Encode(n: nat, length: nat): string {
    if length == 0 then "" else [Letter(n % 62)] + Encode(n / 62, length - 1)
  }

  function Decode(key: string): int {
    if key == "" then 0 else DigitOf(key[0]) + 62 * Decode(key[1..])
  }

  function Pow62(k: nat): nat
    ensures Pow62(k) > 0
  {
    if k == 0 then 1 else 62 * Pow62(k - 1)
  }

  predicate InAlphabet(key: string) {
    forall i | 0 <= i < |key| :: IsLetter(key[i])
  }

  /** The number of different short keys. */
  const KEY_SPACE: nat := Pow62(SHORT_KEY_LENGTH)

  function ShortKey(hash: Hash, url: string): string {
    Encode(hash(url), SHORT_KEY_LENGTH)
  }

  lemma LetterRoundTrip(d: nat)
    requires d < 62
    ensures IsLetter(Letter(d)) && DigitOf(Letter(d)) == d
  {
  }

  lemma DigitRoundTrip(c: char)
    requires IsLetter(c)
    ensures 0 <= DigitOf(c) < 62 && Letter(DigitOf(c)) == c
  {
  }

  lemma MultiplesAreSpread(d: int, x: int)
    requires d > 0
    ensures x >= 1 ==> d * x >= d
    ensures x <= -1 ==> d * x <= -d
  {
  }

  lemma ModUnique(n: nat, d: nat, q: nat, r: nat)
    requires d > 0 && r < d && n == d * q + r
    ensures n / d == q && n % d == r
  {
    assert d * (n / d - q) == r - n % d;
    MultiplesAreSpread(d, n / d - q);
  }

  /** Splitting off the lowest digit of a residue. */
  lemma ResidueStep(n: nat, p: nat)
    requires p > 0
    ensures n % (62 * p) == n % 62 + 62 * ((n / 62) % p)
  {
    var q, r := (n / 62) / p, (n / 62) % p;
    assert n / 62 == p * q + r;
    assert n == 62 * (p * q + r) + n % 62;
    assert 62 * (p * q) == (62 * p) * q;
    ModUnique(n, 62 * p, q, 62 * r + n % 62);
  }

  /** Decoding what the generator wrote gives the hash modulo 62 to the number of letters. */
  lemma {:induction false} DecodeEncode(n: nat, length: nat)
    ensures |Encode(n, length)| == length
    ensures InAlphabet(Encode(n, length))
    ensures Decode(Encode(n, length)) == n % Pow62(length)
  {
    if length == 0 {
    } else {
      DecodeEncode(n / 62, length - 1);
      LetterRoundTrip(n % 62);
      ResidueStep(n, Pow62(length - 1));
      var key := Encode(n, length);
      assert key[1..] == Encode(n / 62, length - 1);
    }
  }

  lemma DivideTwice(n: nat, p: nat)
    requires p > 0
    ensures (n / 62) / p == n / (62 * p)
  {
    var q, r := (n / 62) / p, (n / 62) % p;
    assert n / 62 == p * q + r;
    assert n == 62 * (p * q + r) + n % 62;
    assert 62 * (p * q) == (62 * p) * q;
    ModUnique(n, 62 * p, q, 62 * r + n % 62);
  }

  /** Letter `i` stands for digit `i`. */
  lemma {:induction false} EncodeAt(n: nat, length: nat, i: nat)
    requires i < length
    ensures |Encode(n, length)| == length && Encode(n, length)[i] == Letter((n / Pow62(i)) % 62)
  {
    DecodeEncode(n, length);
    if i == 0 {
    } else {
      EncodeAt(n / 62, length - 1, i - 1);
      DivideTwice(n, Pow62(i - 1));
    }
  }

  /** Every word over the alphabet is what the generator writes for its own value. */
  lemma {:induction false} EncodeDecode(key: string)
    requires InAlphabet(key)
    ensures 0 <= Decode(key) < Pow62(|key|)
    ensures Encode(Decode(key), |key|) == key
  {
    if key == "" {
    } else {
      var rest := key[1..];
      assert forall i | 0 <= i < |rest| :: rest[i] == key[i + 1];
      EncodeDecode(rest);
      DigitRoundTrip(key[0]);
      var n := Decode(key);
      assert n / 62 == Decode(rest) && n % 62 == DigitOf(key[0]);
      assert Encode(n, |key|) == [key[0]] + rest == key;
    }
  }

  /** Two URLs get the same key exactly when their hashes agree modulo 62^11. */
  lemma SameKeyIffCongruent(hash: Hash, u: string, v: string)
    ensures ShortKey(hash, u) == ShortKey(hash, v) <==> hash(u) % KEY_SPACE == hash(v) % KEY_SPACE
  {
    var a, b := ShortKey(hash, u), ShortKey(hash, v);
    DecodeEncode(hash(u), SHORT_KEY_LENGTH);
    DecodeEncode(hash(v), SHORT_KEY_LENGTH);
    EncodeDecode(a);
    EncodeDecode(b);
  }

  /** Every eleven-letter word is the key of some digest, and of one below 62^11: no key is wasted. */
  lemma EveryKeyIsReached(key: string) returns (digest: Digest)
    requires |key| == SHORT_KEY_LENGTH && InAlphabet(key)
    ensures digest < KEY_SPACE
    ensures forall hash: Hash, url :: hash(url) == digest ==> ShortKey(hash, url) == key
  {
    EncodeDecode(key);
    KeySpaceFits();
    digest := Decode(key);
  }

  lemma KeySpaceFits()
    ensures KEY_SPACE == 52036560683837093888 < TWO_TO_THE_256
  {
    assert Pow62(3) == 238328;
    assert Pow62(6) == 238328 * 238328;
    assert Pow62(9) == 238328 * 238328 * 238328;
  }

  /** The key of a hash value: eleven letters, letter `i` being the alphabet's at base-62 digit `i`, so that
      the key, read lowest digit first, is the hash modulo 62^11. */
  ghost predicate IsKeyOf(key: string, n: nat) {
    && |key| == 11 && InAlphabet(key)
    && (forall i | 0 <= i < 11 :: key[i] == ALPHABET[(n / Pow62(i)) % 62])
    && Decode(key) == n % 52036560683837093888
  }

  lemma ShortKeyMeaning(hash: Hash, url: string)
    ensures IsKeyOf(ShortKey(hash, url), hash(url))
  {
    hide Encode, Decode, Pow62;
    DecodeEncode(hash(url), 11);
    KeySpaceFits();
    forall i | 0 <= i < 11
      ensures ShortKey(hash, url)[i] == ALPHABET[(hash(url) / Pow62(i)) % 62]
    {
      EncodeAt(hash(url), 11, i);
      LetterIsAlphabet((hash(url) / Pow62(i)) % 62);
    }
  }

  /** The loop of the program: divide in place, append one letter a round. */
  method ShortKeyFromURL(hash: Hash, url: string) returns (key: string)
    ensures key == ShortKey(hash, url)
    ensures IsKeyOf(key, hash(url))
  {
    ShortKeyMeaning(hash, url);
    hide IsKeyOf;
    var n: nat := hash(url);
    key := "";
    while |key| < SHORT_KEY_LENGTH
      invariant |key| <= SHORT_KEY_LENGTH
      invariant key + Encode(n, SHORT_KEY_LENGTH - |key|) == ShortKey(hash, url)
    {
      ghost var done, rest := key, Encode(n, SHORT_KEY_LENGTH - |key|);
      var mod := n % 62;
      n := n / 62;
      key := key + [Letter(mod)];
      assert rest == [Letter(mod)] + Encode(n, SHORT_KEY_LENGTH - |key|);
      assert done + rest == key + Encode(n, SHORT_KEY_LENGTH - |key|);
    }
    assert key + "" == key;
  }

  /** `fmt.Sprintf("%s:%d", url, attempt)`. */
  function Salted(url: string, attempt: nat): string {
    url + ":" + Decimal.Digits(attempt)
  }

  /** The key ShortenURL tries at each attempt: the plain hash first, then salted ones. */
  function Slot(hash: Hash, url: string, attempt: nat): string {
    if attempt == 0 then ShortKey(hash, url) else ShortKey(hash, Salted(url, attempt))
  }

  /** The texts that are hashed: the URL itself, then the URL with a colon and the number of the attempt. */
  lemma SlotTexts(hash: Hash, url: string)
    ensures Slot(hash, url, 0) == ShortKey(hash, url)
    ensures Slot(hash, url, 1) == ShortKey(hash, url + ":1")
    ensures Slot(hash, url, 2) == ShortKey(hash, url + ":2")
    ensures Slot(hash, url, 3) == ShortKey(hash, url + ":3")
    ensures Slot(hash, url, 4) == ShortKey(hash, url + ":4")
    ensures Slot(hash, url, 5) == ShortKey(hash, url + ":5")
    ensures Slot(hash, url, 6) == ShortKey(hash, url + ":6")
  {
    hide ShortKey;
    SaltedText(url, 1, ":1");
    SaltedText(url, 2, ":2");
    SaltedText(url, 3, ":3");
    SaltedText(url, 4, ":4");
    SaltedText(url, 5, ":5");
    SaltedText(url, 6, ":6");
  }

  lemma SaltedText(url: string, n: nat, text: string)
    requires n < 10 && |text| == 2 && text[0] == ':' && text[1] as int == '0' as int + n
    ensures Salted(url, n) == url + text
  {
    assert Decimal.Digits(n) == [text[1]];
  }
}
