/** The receipt of an import inspection (internal/profiles/import.go): the canonical input of its
    MAC, and the envelope that carries expiry and MAC as base64url text. */
module Receipt {
  import opened Contracts

  type Byte = n: int | 0 <= n < 256

  const WORD := 0x1_0000_0000_0000_0000
  const POLICY_VERSION := 1
  const RECEIPT_VERSION := 1
  const MAC_BYTES := 32
  const LAST_SECOND := 253402300799  // the end of year 9999 in Unix time

  // ----- fixed-width numbers -----------------------------------------------------------------

  function Power(width: nat): (n: nat)
    ensures n >= 1
  {
    if width == 0 then 1 else 256 * Power(width - 1)
  }

  function BigEndian(n: nat, width: nat): (bytes: seq<Byte>)
    ensures |bytes| == width
  {
    if width == 0 then [] else BigEndian(n / 256, width - 1) + [n % 256]
  }

  function Number(bytes: seq<Byte>): (n: nat) {
    if bytes == [] then 0 else 256 * Number(bytes[..|bytes| - 1]) + bytes[|bytes| - 1]
  }

  lemma {:induction false} NumberOfBigEndian(n: nat, width: nat)
    requires n < Power(width)
    ensures Number(BigEndian(n, width)) == n
  {
    if width > 0 {
      NumberOfBigEndian(n / 256, width - 1);
      assert BigEndian(n, width)[..width - 1] == BigEndian(n / 256, width - 1);
    }
  }

  lemma WordIsEightBytes()
    ensures Power(8) == WORD
  {
    assert Power(2) == 0x1_0000;
    assert Power(4) == 0x1_0000_0000;
    assert Power(6) == 0x1_0000_0000_0000;
  }

  /** binary.BigEndian of a conversion to uint64: two's complement for negative values. */
  function Uint64(n: int): (bytes: seq<Byte>)
    ensures |bytes| == 8
  {
    BigEndian(n % WORD, 8)
  }

  predicate Int64(n: int) {
    -WORD / 2 <= n < WORD / 2
  }

  lemma Uint64Number(n: int)
    ensures Number(Uint64(n)) == n % WORD
  {
    WordIsEightBytes();
    NumberOfBigEndian(n % WORD, 8);
  }

  // ----- the canonical input -----------------------------------------------------------------

  /** The bound fields of one inspection record, in the order they are written: digest, ID,
      protocol, identifier, disposition, key digest, override. */
  datatype Bound = Bound(ordinal: int, fields: seq<seq<Byte>>)

  const FIELDS := 7

  predicate Writable(b: Bound) {
    && Int64(b.ordinal)
    && |b.fields| == FIELDS
    && forall k :: 0 <= k < |b.fields| ==> |b.fields[k]| < WORD
  }

  /** An encoding of numbers in eight bytes that tells apart the numbers of a range: Uint64, for
      the unsigned and for the signed range. The lemmas below need nothing else of it. */
  type Word = int -> seq<Byte>

  ghost predicate EightBytes(word: Word) {
    forall n :: |word(n)| == 8
  }

  ghost predicate Separates(word: Word, low: int, high: int) {
    forall a, b :: low <= a < high && low <= b < high && word(a) == word(b) ==> a == b
  }

  /** Lists of fields and records, each written after those before it. */
  function FieldBytes(word: Word, fields: seq<seq<Byte>>): seq<Byte> {
    if fields == [] then []
    else FieldBytes(word, fields[..|fields| - 1]) + word(|fields[|fields| - 1]|) + fields[|fields| - 1]
  }

  function RecordBytes(word: Word, records: seq<Bound>): seq<Byte> {
    if records == [] then []
    else
      var last := records[|records| - 1];
      RecordBytes(word, records[..|records| - 1]) + word(last.ordinal) + FieldBytes(word, last.fields)
  }

  function Header(word: Word, revision: nat, expiry: int, count: nat): seq<Byte> {
    word(POLICY_VERSION) + word(revision) + word(expiry) + word(count)
  }

  function CanonicalIn(word: Word, revision: nat, expiry: int, records: seq<Bound>): seq<Byte> {
    Header(word, revision, expiry, |records|) + RecordBytes(word, records)
  }

  function Canonical(revision: nat, expiry: int, records: seq<Bound>): seq<Byte> {
    CanonicalIn(Uint64, revision, expiry, records)
  }

  /** canonicalReceiptInput: one buffer, filled in order. */
  method CanonicalReceiptInput(revision: nat, expiry: int, records: seq<Bound>) returns (buffer: seq<Byte>)
    ensures buffer == Canonical(revision, expiry, records)
  {
    buffer := WriteRecords(Uint64, Header(Uint64, revision, expiry, |records|), records);
  }

  method WriteRecords(word: Word, header: seq<Byte>, records: seq<Bound>) returns (buffer: seq<Byte>)
    ensures buffer == header + RecordBytes(word, records)
  {
    buffer := header;
    for i := 0 to |records|
      invariant buffer == header + RecordBytes(word, records[..i])
    {
      assert records[..i + 1][..i] == records[..i];
      buffer := WriteStrings(word, buffer + word(records[i].ordinal), records[i].fields);
    }
    assert records[..|records|] == records;
  }

  method WriteStrings(word: Word, before: seq<Byte>, fields: seq<seq<Byte>>) returns (buffer: seq<Byte>)
    ensures buffer == before + FieldBytes(word, fields)
  {
    buffer := before;
    for k := 0 to |fields|
      invariant buffer == before + FieldBytes(word, fields[..k])
    {
      assert fields[..k + 1][..k] == fields[..k];
      buffer := buffer + word(|fields[k]|) + fields[k];
    }
    assert fields[..|fields|] == fields;
  }

  /** The same bytes read from the front: the first field, or the first record, can be cut off. */
  function Written(word: Word, fields: seq<seq<Byte>>): seq<Byte> {
    if fields == [] then [] else word(|fields[0]|) + fields[0] + Written(word, fields[1..])
  }

  function Listed(word: Word, records: seq<Bound>): seq<Byte> {
    if records == [] then []
    else word(records[0].ordinal) + Written(word, records[0].fields) + Listed(word, records[1..])
  }

  lemma {:induction false} WrittenSnoc(word: Word, fields: seq<seq<Byte>>, last: seq<Byte>)
    ensures Written(word, fields + [last]) == Written(word, fields) + word(|last|) + last
  {
    if fields == [] {
      assert Written(word, [last]) == word(|last|) + last + Written(word, []);
    } else {
      WrittenSnoc(word, fields[1..], last);
      assert (fields + [last])[1..] == fields[1..] + [last];
    }
  }

  lemma {:induction false} FieldBytesFront(word: Word, fields: seq<seq<Byte>>)
    ensures FieldBytes(word, fields) == Written(word, fields)
  {
    if |fields| > 0 {
      var last := fields[|fields| - 1];
      FieldBytesFront(word, fields[..|fields| - 1]);
      WrittenSnoc(word, fields[..|fields| - 1], last);
      assert fields == fields[..|fields| - 1] + [last];
    }
  }

  lemma {:induction false} ListedSnoc(word: Word, records: seq<Bound>, last: Bound)
    ensures Listed(word, records + [last]) == Listed(word, records) + word(last.ordinal) + Written(word, last.fields)
  {
    if records == [] {
      assert Listed(word, [last]) == word(last.ordinal) + Written(word, last.fields) + Listed(word, []);
    } else {
      ListedSnoc(word, records[1..], last);
      assert (records + [last])[1..] == records[1..] + [last];
    }
  }

  lemma {:induction false} RecordBytesFront(word: Word, records: seq<Bound>)
    ensures RecordBytes(word, records) == Listed(word, records)
  {
    if |records| > 0 {
      var last := records[|records| - 1];
      RecordBytesFront(word, records[..|records| - 1]);
      FieldBytesFront(word, last.fields);
      ListedSnoc(word, records[..|records| - 1], last);
      assert records == records[..|records| - 1] + [last];
    }
  }

  lemma SplitAt<T>(a: seq<T>, b: seq<T>, c: seq<T>, d: seq<T>)
    requires a + b == c + d && |a| == |c|
    ensures a == c && b == d
  {
    assert a == (a + b)[..|a|] == (c + d)[..|c|];
    assert b == (a + b)[|a|..] == (c + d)[|c|..];
  }

  lemma Associate<T>(a: seq<T>, b: seq<T>, c: seq<T>, d: seq<T>)
    ensures (a + b + c) + d == a + (b + (c + d))
  {
  }

  /** As many fields, whatever follows them: the fields and the rest can be told apart. */
  lemma {:induction false} WrittenInjective(word: Word, f: seq<seq<Byte>>, g: seq<seq<Byte>>, x: seq<Byte>,
                                            y: seq<Byte>)
    requires EightBytes(word) && Separates(word, 0, WORD)
    requires |f| == |g| && Written(word, f) + x == Written(word, g) + y
    requires forall k :: 0 <= k < |f| ==> |f[k]| < WORD && |g[k]| < WORD
    ensures f == g && x == y
    decreases |f|
  {
    if |f| > 0 {
      var p, q := Written(word, f[1..]), Written(word, g[1..]);
      Associate(word(|f[0]|), f[0], p, x);
      Associate(word(|g[0]|), g[0], q, y);
      SplitAt(word(|f[0]|), f[0] + (p + x), word(|g[0]|), g[0] + (q + y));
      assert |f[0]| == |g[0]|;
      SplitAt(f[0], p + x, g[0], q + y);
      WrittenInjective(word, f[1..], g[1..], x, y);
      assert f == [f[0]] + f[1..] && g == [g[0]] + g[1..];
    } else {
      assert Written(word, f) + x == x && Written(word, g) + y == y;
    }
  }

  lemma {:induction false} ListedInjective(word: Word, r: seq<Bound>, s: seq<Bound>)
    requires EightBytes(word) && Separates(word, 0, WORD) && Separates(word, -WORD / 2, WORD / 2)
    requires |r| == |s| && Listed(word, r) == Listed(word, s)
    requires forall k :: 0 <= k < |r| ==> Writable(r[k]) && Writable(s[k])
    ensures r == s
    decreases |r|
  {
    if |r| > 0 {
      var p, q := Listed(word, r[1..]), Listed(word, s[1..]);
      Associate(word(r[0].ordinal), Written(word, r[0].fields), p, []);
      Associate(word(s[0].ordinal), Written(word, s[0].fields), q, []);
      assert p + [] == p && q + [] == q;
      assert Listed(word, r) + [] == Listed(word, r) && Listed(word, s) + [] == Listed(word, s);
      SplitAt(word(r[0].ordinal), Written(word, r[0].fields) + p, word(s[0].ordinal), Written(word, s[0].fields) + q);
      WrittenInjective(word, r[0].fields, s[0].fields, p, q);
      ListedInjective(word, r[1..], s[1..]);
      assert r == [r[0]] + r[1..] && s == [s[0]] + s[1..];
    }
  }

  lemma HeaderInjective(word: Word, rev: nat, exp: int, n: nat, rev': nat, exp': int, n': nat)
    requires EightBytes(word) && Separates(word, 0, WORD) && Separates(word, -WORD / 2, WORD / 2)
    requires rev < WORD && rev' < WORD && Int64(exp) && Int64(exp') && n < WORD && n' < WORD
    requires Header(word, rev, exp, n) == Header(word, rev', exp', n')
    ensures rev == rev' && exp == exp' && n == n'
  {
    var h, h' := Header(word, rev, exp, n), Header(word, rev', exp', n');
    assert h[8..16] == word(rev) && h'[8..16] == word(rev');
    assert h[16..24] == word(exp) && h'[16..24] == word(exp');
    assert h[24..] == word(n) && h'[24..] == word(n');
  }

  lemma CanonicalInInjective(word: Word, rev: nat, exp: int, r: seq<Bound>, rev': nat, exp': int, s: seq<Bound>)
    requires EightBytes(word) && Separates(word, 0, WORD) && Separates(word, -WORD / 2, WORD / 2)
    requires rev < WORD && rev' < WORD && Int64(exp) && Int64(exp') && |r| < WORD && |s| < WORD
    requires forall k :: 0 <= k < |r| ==> Writable(r[k])
    requires forall k :: 0 <= k < |s| ==> Writable(s[k])
    ensures CanonicalIn(word, rev, exp, r) == CanonicalIn(word, rev', exp', s) ==> rev == rev' && exp == exp' && r == s
  {
    if CanonicalIn(word, rev, exp, r) == CanonicalIn(word, rev', exp', s) {
      SplitAt(Header(word, rev, exp, |r|), RecordBytes(word, r), Header(word, rev', exp', |s|), RecordBytes(word, s));
      HeaderInjective(word, rev, exp, |r|, rev', exp', |s|);
      RecordBytesFront(word, r);
      RecordBytesFront(word, s);
      ListedInjective(word, r, s);
    }
  }

  /** The canonical input determines the revision, the expiry and every bound field of every
      record, for record lists of any length. */
  lemma CanonicalInjective(rev: nat, exp: int, r: seq<Bound>, rev': nat, exp': int, s: seq<Bound>)
    requires rev < WORD && rev' < WORD && Int64(exp) && Int64(exp') && |r| < WORD && |s| < WORD
    requires forall k :: 0 <= k < |r| ==> Writable(r[k])
    requires forall k :: 0 <= k < |s| ==> Writable(s[k])
    ensures Canonical(rev, exp, r) == Canonical(rev', exp', s) <==> rev == rev' && exp == exp' && r == s
  {
    Uint64Separates();
    CanonicalInInjective(Uint64, rev, exp, r, rev', exp', s);
  }

  lemma Uint64Separates()
    ensures EightBytes(Uint64) && Separates(Uint64, 0, WORD) && Separates(Uint64, -WORD / 2, WORD / 2)
  {
    forall a, b | Uint64(a) == Uint64(b) ensures a % WORD == b % WORD { SameWord(a, b); }
    forall a, b | a % WORD == b % WORD
      ensures 0 <= a < WORD && 0 <= b < WORD ==> a == b
      ensures Int64(a) && Int64(b) ==> a == b
    {
      SameRemainder(a, b);
    }
  }

  lemma SameWord(a: int, b: int)
    requires Uint64(a) == Uint64(b)
    ensures a % WORD == b % WORD
  {
    Uint64Number(a);
    Uint64Number(b);
  }

  lemma SameRemainder(a: int, b: int)
    requires a % WORD == b % WORD
    ensures (0 <= a < WORD && 0 <= b < WORD) || (Int64(a) && Int64(b)) ==> a == b
  {
  }

  // ----- base64url ---------------------------------------------------------------------------

  type Sextet = n: int | 0 <= n < 64

  /** The alphabet of RFC 4648, section 5. */
  function Symbol(n: Sextet): char {
    if n < 26 then 'A' + n as char
    else if n < 52 then 'a' + (n - 26) as char
    else if n < 62 then '0' + (n - 52) as char
    else if n == 62 then '-' else '_'
  }

  function Value(c: char): Option<Sextet> {
    if 'A' <= c <= 'Z' then Some(c as int - 'A' as int)
    else if 'a' <= c <= 'z' then Some(c as int - 'a' as int + 26)
    else if '0' <= c <= '9' then Some(c as int - '0' as int + 52)
    else if c == '-' then Some(62)
    else if c == '_' then Some(63)
    else None
  }

  lemma SymbolValue(n: Sextet)
    ensures Value(Symbol(n)) == Some(n) && Symbol(n) !in {'\r', '\n'}
  {
  }

  /** The sextets of section 4 of RFC 4648, without padding: unused bits of the last are zero. */
  function Sextets(data: seq<Byte>): seq<Sextet> {
    if |data| == 0 then []
    else if |data| == 1 then [data[0] / 4, data[0] % 4 * 16]
    else if |data| == 2 then [data[0] / 4, data[0] % 4 * 16 + data[1] / 16, data[1] % 16 * 4]
    else
      [data[0] / 4, data[0] % 4 * 16 + data[1] / 16, data[1] % 16 * 4 + data[2] / 64, data[2] % 64] + Sextets(data[3..])
  }

  /** Back to bytes: the decoder ignores the unused bits of the last sextet. */
  function Bytes(sextets: seq<Sextet>): Option<seq<Byte>> {
    if |sextets| == 0 then Some([])
    else if |sextets| == 1 then None
    else
      var first: Byte := (sextets[0] as int) * 4 + sextets[1] / 16;
      if |sextets| == 2 then Some([first])
      else
        var second: Byte := (sextets[1] as int) % 16 * 16 + sextets[2] / 4;
        if |sextets| == 3 then Some([first, second])
        else
          var third: Byte := (sextets[2] as int) % 4 * 64 + sextets[3];
          var rest := Bytes(sextets[4..]);
          if rest.None? then None else Some([first, second, third] + rest.value)
  }

  function Symbols(sextets: seq<Sextet>): string {
    if sextets == [] then "" else [Symbol(sextets[0])] + Symbols(sextets[1..])
  }

  /** The decoder skips line breaks anywhere and refuses every other foreign character. */
  function Values(text: string): Option<seq<Sextet>> {
    if text == "" then Some([])
    else if text[0] in {'\r', '\n'} then Values(text[1..])
    else
      var rest := Values(text[1..]);
      if Value(text[0]).None? || rest.None? then None else Some([Value(text[0]).value] + rest.value)
  }

  function Encode64(data: seq<Byte>): string {
    Symbols(Sextets(data))
  }

  function Decode64(text: string): Option<seq<Byte>> {
    if Values(text).None? then None else Bytes(Values(text).value)
  }

  lemma {:induction false} ValuesOfSymbols(sextets: seq<Sextet>)
    ensures Values(Symbols(sextets)) == Some(sextets)
  {
    if sextets != [] {
      SymbolValue(sextets[0]);
      ValuesOfSymbols(sextets[1..]);
      assert Symbols(sextets)[1..] == Symbols(sextets[1..]);
      assert sextets == [sextets[0]] + sextets[1..];
    }
  }

  lemma Regrouped(a: Byte, b: Byte, c: Byte)
    ensures a / 4 * 4 + (a % 4 * 16 + b / 16) / 16 == a
    ensures (a % 4 * 16 + b / 16) % 16 * 16 + (b % 16 * 4 + c / 64) / 4 == b
    ensures (b % 16 * 4 + c / 64) % 4 * 64 + c % 64 == c
    ensures a / 4 * 4 + (a % 4 * 16) / 16 == a && (a % 4 * 16 + b / 16) % 16 * 16 + (b % 16 * 4) / 4 == b
  {
  }

  lemma {:induction false} BytesOfSextets(data: seq<Byte>)
    ensures Bytes(Sextets(data)) == Some(data)
    decreases |data|
  {
    if |data| == 1 {
      Regrouped(data[0], 0, 0);
      assert data == [data[0]];
    } else if |data| == 2 {
      Regrouped(data[0], data[1], 0);
      assert data == [data[0], data[1]];
    } else if |data| >= 3 {
      Regrouped(data[0], data[1], data[2]);
      BytesOfSextets(data[3..]);
      assert Sextets(data)[4..] == Sextets(data[3..]);
      assert data == [data[0], data[1], data[2]] + data[3..];
    }
  }

  /** Decoding undoes encoding, for data of any length. */
  lemma RoundTrip64(data: seq<Byte>)
    ensures Decode64(Encode64(data)) == Some(data)
  {
    ValuesOfSymbols(Sextets(data));
    BytesOfSextets(data);
  }

  // ----- the envelope ------------------------------------------------------------------------

  datatype Envelope = Envelope(expiry: nat, mac: seq<Byte>)

  /** sign, after the MAC: version, expiry and MAC as base64url. */
  function Seal(expiry: int, mac: seq<Byte>): string {
    Encode64(Layout(Uint64(expiry), mac))
  }

  function DecodeReceipt(text: string): Option<Envelope> {
    var data := Decode64(text);
    if data.None? || |data.value| != 1 + 8 + MAC_BYTES || data.value[0] != RECEIPT_VERSION then None
    else if Encode64(data.value) != text then None
    else
      var seconds := Number(data.value[1..9]);
      if seconds > LAST_SECOND then None else Some(Envelope(seconds, data.value[9..]))
  }

  lemma {:induction false} BigEndianOfNumber(bytes: seq<Byte>)
    ensures BigEndian(Number(bytes), |bytes|) == bytes
    ensures Number(bytes) < Power(|bytes|)
  {
    if bytes != [] { BigEndianOfNumber(bytes[..|bytes| - 1]); }
  }

  lemma WordOfNumber(w: seq<Byte>)
    requires |w| == 8
    ensures Uint64(Number(w)) == w && Number(w) < WORD
  {
    WordIsEightBytes();
    BigEndianOfNumber(w);
    InWord(Number(w));
  }

  lemma InWord(n: nat)
    requires n < WORD
    ensures n % WORD == n
  {
  }

  /** The bytes of an envelope, with its expiry still in eight bytes. */
  function Layout(w: seq<Byte>, mac: seq<Byte>): (data: seq<Byte>)
    ensures |data| == 1 + |w| + |mac|
  {
    [RECEIPT_VERSION] + w + mac
  }

  lemma LayoutParts(w: seq<Byte>, mac: seq<Byte>)
    requires |w| == 8
    ensures Layout(w, mac)[0] == RECEIPT_VERSION && Layout(w, mac)[1..9] == w && Layout(w, mac)[9..] == mac
  {
  }

  lemma SmallRemainder(expiry: int)
    requires Int64(expiry)
    ensures expiry % WORD <= LAST_SECOND <==> 0 <= expiry <= LAST_SECOND
    ensures 0 <= expiry ==> expiry % WORD == expiry
  {
  }

  lemma DecodeLayout(text: string, w: seq<Byte>, expiry: int, mac: seq<Byte>)
    requires |w| == 8 && |mac| == MAC_BYTES && Int64(expiry) && Number(w) == expiry % WORD
    requires text == Encode64(Layout(w, mac))
    ensures DecodeReceipt(text) == if 0 <= expiry <= LAST_SECOND then Some(Envelope(expiry, mac)) else None
  {
    SmallRemainder(expiry);
    RoundTrip64(Layout(w, mac));
    LayoutParts(w, mac);
  }

  lemma LayoutOf(data: seq<Byte>)
    requires |data| == 1 + 8 + MAC_BYTES && data[0] == RECEIPT_VERSION
    ensures data == Layout(data[1..9], data[9..])
  {
  }

  /** A receipt is accepted exactly when it is the one canonical text of its envelope: no other
      text is accepted for the same expiry and MAC, line breaks and spare bits included. */
  lemma OneAcceptedText(text: string, e: Envelope)
    ensures DecodeReceipt(text) == Some(e) <==>
      |e.mac| == MAC_BYTES && e.expiry <= LAST_SECOND && text == Seal(e.expiry, e.mac)
  {
    if DecodeReceipt(text) == Some(e) {
      var data := Decode64(text).value;
      LayoutOf(data);
      WordOfNumber(data[1..9]);
    }
    if |e.mac| == MAC_BYTES && e.expiry <= LAST_SECOND && text == Seal(e.expiry, e.mac) {
      Unsealed(e.expiry, e.mac);
    }
  }

  /** Sealing and decoding return the same expiry and MAC, for exactly the expiries from the
      start of Unix time to the end of year 9999. */
  lemma Unsealed(expiry: int, mac: seq<Byte>)
    requires |mac| == MAC_BYTES && Int64(expiry)
    ensures DecodeReceipt(Seal(expiry, mac)) == if 0 <= expiry <= LAST_SECOND then Some(Envelope(expiry, mac)) else None
  {
    Uint64Number(expiry);
    DecodeLayout(Seal(expiry, mac), Uint64(expiry), expiry, mac);
  }
}
