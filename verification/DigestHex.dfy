/** The response check of digest authentication, with its digests turned to hex inside one buffer. */
module DigestHex {

  type byte = x: int | 0 <= x < 256

  const SHA_SIZE := 32
  const QOP: seq<byte> := [0x61, 0x75, 0x74, 0x68] // auth
  // user@webui.org
  const REALM: seq<byte> := [0x75, 0x73, 0x65, 0x72, 0x40, 0x77, 0x65, 0x62, 0x75, 0x69, 0x2e, 0x6f, 0x72, 0x67]
  const COLON: seq<byte> := [0x3a]

  /** The lower-case hex digit of a number below 16. */
  function Digit(n: nat): byte
    requires n < 16
  {
    if n < 10 then 0x30 + n else 0x57 + n
  }

  function Undigit(d: byte): int {
    if d < 0x40 then d - 0x30 else d - 0x57
  }

  function Hex(s: seq<byte>): (h: seq<byte>)
    ensures |h| == 2 * |s|
    ensures forall k :: 0 <= k < |s| ==> h[2 * k] == Digit(s[k] / 16) && h[2 * k + 1] == Digit(s[k] % 16)
  {
    if s == [] then [] else Hex(s[..|s| - 1]) + [Digit(s[|s| - 1] / 16), Digit(s[|s| - 1] % 16)]
  }

  /** Reads hex digits back; only meaningful on digits. */
  function Unhex(h: seq<byte>): (s: seq<int>)
    requires |h| % 2 == 0
    ensures |s| == |h| / 2
  {
    seq(|h| / 2, k requires 0 <= k < |h| / 2 => 16 * Undigit(h[2 * k]) + Undigit(h[2 * k + 1]))
  }

  /** The hex text determines the bytes. */
  lemma UnhexHex(s: seq<byte>)
    ensures Unhex(Hex(s)) == s
  {
  }

  lemma HexInjective(s: seq<byte>, t: seq<byte>)
    requires Hex(s) == Hex(t)
    ensures s == t
  {
    UnhexHex(s);
    UnhexHex(t);
  }

  /** Expands the 32 bytes at `base` to 64 digits in the same place, from the back: the writing position `d` stays
      at or behind the reading position `c`, so no byte is overwritten before it has been read twice. */
  method ExpandBackwards(storage: array<byte>, base: nat, last: int) returns (d: int)
    requires base + 2 * SHA_SIZE <= storage.Length && last == base + 2 * SHA_SIZE - 1
    modifies storage
    ensures d == base - 1
    ensures storage[..]
         == old(storage[..base]) + Hex(old(storage[base..base + SHA_SIZE])) + old(storage[base + 2 * SHA_SIZE..])
  {
    ghost var was, digits := storage[..], Hex(storage[base..base + SHA_SIZE]);
    d := last;
    var c := base + SHA_SIZE - 1;
    while c >= base
      invariant base - 1 <= c && d == base + 2 * (c - base) + 1
      invariant forall i :: 0 <= i <= d ==> storage[i] == was[i]
      invariant forall i :: d < i < base + 2 * SHA_SIZE ==> storage[i] == digits[i - base]
      invariant forall i :: base + 2 * SHA_SIZE <= i < storage.Length ==> storage[i] == was[i]
    {
      ghost var k := c - base;
      assert digits[2 * k] == Digit(was[c] / 16) && digits[2 * k + 1] == Digit(was[c] % 16);
      storage[d] := Digit(storage[c] % 16);
      d := d - 1;
      storage[d] := Digit(storage[c] / 16);
      d := d - 1;
      c := c - 1;
    }
    JoinParts(storage[..], was, digits, base);
  }

  lemma JoinParts(now: seq<byte>, was: seq<byte>, digits: seq<byte>, base: nat)
    requires base + |digits| <= |now| == |was|
    requires forall i :: 0 <= i < base || base + |digits| <= i < |now| ==> now[i] == was[i]
    requires forall i :: base <= i < base + |digits| ==> now[i] == digits[i - base]
    ensures now == was[..base] + digits + was[base + |digits|..]
  {
  }

  /** Turns the two digests at 0 and 64 into their digits. */
  method ExpandBoth(storage: array<byte>)
    requires storage.Length == 4 * SHA_SIZE
    modifies storage
    ensures storage[..] == Hex(old(storage[..SHA_SIZE])) + Hex(old(storage[2 * SHA_SIZE..3 * SHA_SIZE]))
  {
    ghost var was := storage[..];
    var d := ExpandBackwards(storage, 2 * SHA_SIZE, 4 * SHA_SIZE - 1);
    assert storage[..SHA_SIZE] == was[..SHA_SIZE];
    d := ExpandBackwards(storage, 0, d);
  }

  /** Compares a digest with its expected digits without building them. */
  method SameDigits(digest: seq<byte>, response: seq<byte>) returns (same: bool)
    requires |response| == 2 * |digest|
    ensures same <==> response == Hex(digest)
  {
    var r := 0;
    for c := 0 to |digest|
      invariant r == 2 * c && response[..r] == Hex(digest)[..r]
    {
      if Digit(digest[c] / 16) != response[r] || Digit(digest[c] % 16) != response[r + 1] {
        return false;
      }
      assert response[..r + 2] == response[..r] + [response[r], response[r + 1]];
      assert Hex(digest)[..r + 2] == Hex(digest)[..r] + [Hex(digest)[r], Hex(digest)[r + 1]];
      r := r + 2;
    }
    assert response[..r] == response && Hex(digest)[..r] == Hex(digest);
    return true;
  }

  /** The buffer with the two digests in place. */
  method Load(first: seq<byte>, second: seq<byte>) returns (storage: array<byte>)
    requires |first| == |second| == SHA_SIZE
    ensures fresh(storage) && storage.Length == 4 * SHA_SIZE
    ensures storage[..SHA_SIZE] == first && storage[2 * SHA_SIZE..3 * SHA_SIZE] == second
  {
    storage := new byte[4 * SHA_SIZE](_ => 0);
    forall i | 0 <= i < SHA_SIZE {
      storage[i] := first[i];
    }
    forall i | 0 <= i < SHA_SIZE {
      storage[2 * SHA_SIZE + i] := second[i];
    }
  }

  datatype Credentials = Credentials(
    username: seq<byte>, nonce: seq<byte>, nc: seq<byte>, cnonce: seq<byte>, uri: seq<byte>, response: seq<byte>)

  /** The digest of section 3.4.1 of RFC 7616, for the hash function `sha`. */
  function Digest(sha: seq<byte> -> seq<byte>, verb: seq<byte>, password: seq<byte>, c: Credentials): seq<byte> {
    sha(Input(sha(Who(password, c)), sha(What(verb, c)), c))
  }

  function Who(password: seq<byte>, c: Credentials): seq<byte> {
    c.username + COLON + REALM + COLON + password
  }

  function What(verb: seq<byte>, c: Credentials): seq<byte> {
    verb + COLON + c.uri
  }

  /** What is hashed last, from the two digests before. */
  function Input(who: seq<byte>, what: seq<byte>, c: Credentials): seq<byte> {
    Hex(who) + COLON + c.nonce + COLON + c.nc + COLON + c.cnonce + COLON + QOP + COLON + Hex(what)
  }

  /** The part of the authorization check behind the parsing of the header. It accepts the digits of that digest
      and nothing else. */
  method CheckResponse(sha: seq<byte> -> seq<byte>, verb: seq<byte>, password: seq<byte>, c: Credentials)
    returns (ok: bool)
    requires forall m :: |sha(m)| == SHA_SIZE
    ensures ok <==> c.response == Hex(Digest(sha, verb, password, c))
  {
    if |c.response| != 2 * SHA_SIZE {
      return false;
    }
    var first, second := sha(c.username + COLON + REALM + COLON + password), sha(verb + COLON + c.uri);
    var storage := Load(first, second);
    ExpandBoth(storage);
    assert storage[..2 * SHA_SIZE] == Hex(first) && storage[2 * SHA_SIZE..] == Hex(second);
    var final := sha(storage[..2 * SHA_SIZE] + COLON + c.nonce + COLON + c.nc + COLON + c.cnonce + COLON + QOP
                     + COLON + storage[2 * SHA_SIZE..]);
    ok := SameDigits(final, c.response);
  }

  /** Turning the two digests to hex loses nothing: the last hash is taken over the same bytes only where both of them
      are the same. */
  lemma InputDetermines(who: seq<byte>, what: seq<byte>, c: Credentials,
                        who': seq<byte>, what': seq<byte>, c': Credentials)
    requires |who| == |what| == |who'| == |what'| == SHA_SIZE && Input(who, what, c) == Input(who', what', c')
    ensures who == who' && what == what'
  {
    var i, i' := Input(who, what, c), Input(who', what', c');
    assert Hex(who) == i[..2 * SHA_SIZE] && Hex(who') == i'[..2 * SHA_SIZE];
    assert Hex(what) == i[|i| - 2 * SHA_SIZE..] && Hex(what') == i'[|i'| - 2 * SHA_SIZE..];
    HexInjective(who, who');
    HexInjective(what, what');
  }

  // ---- what is hashed ----

  /** The parts of a text between its colons. */
  function Split(s: seq<byte>): (parts: seq<seq<byte>>)
    ensures parts != []
  {
    if s == [] then [[]] else Cons(s[0], Split(s[1..]))
  }

  function Cons(x: byte, parts: seq<seq<byte>>): (more: seq<seq<byte>>)
    requires parts != []
    ensures more != []
  {
    if x == COLON[0] then [[]] + parts else [[x] + parts[0]] + parts[1..]
  }

  ghost predicate Plain(s: seq<byte>) {
    forall i :: 0 <= i < |s| ==> s[i] != COLON[0]
  }

  lemma {:induction false} SplitPlain(s: seq<byte>)
    requires Plain(s)
    ensures Split(s) == [s]
  {
    if s != [] {
      SplitPlain(s[1..]);
      assert [s[0]] + s[1..] == s;
    }
  }

  lemma ConsMore(x: byte, parts: seq<seq<byte>>, more: seq<seq<byte>>)
    requires parts != []
    ensures Cons(x, parts + more) == Cons(x, parts) + more
  {
  }

  /** A colon keeps apart what stands before and behind it. */
  lemma {:induction false} SplitColon(before: seq<byte>, behind: seq<byte>)
    ensures Split(before + COLON + behind) == Split(before) + Split(behind)
  {
    var s := before + COLON + behind;
    if before == [] {
      assert s[0] == COLON[0] && s[1..] == behind;
    } else {
      assert s[0] == before[0] && s[1..] == before[1..] + COLON + behind;
      SplitColon(before[1..], behind);
      ConsMore(before[0], Split(before[1..]), Split(behind));
    }
  }

  /** One more field. */
  lemma SplitField(before: seq<byte>, field: seq<byte>)
    requires Plain(field)
    ensures Split(before + COLON + field) == Split(before) + [field]
  {
    SplitColon(before, field);
    SplitPlain(field);
  }

  lemma DigitsPlain(s: seq<byte>)
    ensures Plain(Hex(s))
  {
    forall i | 0 <= i < |Hex(s)| ensures Hex(s)[i] != COLON[0] {
      assert i == 2 * (i / 2) || i == 2 * (i / 2) + 1;
    }
  }

  /** Section 3.4.1 of RFC 7616: between the colons of what is hashed last stand the digits of the first digest, nonce,
      nonce count, client nonce, quality of protection and the digits of the second digest; of what is hashed first,
      user name, realm and password; and of what is hashed second, method and address. */
  lemma DigestParts(sha: seq<byte> -> seq<byte>, verb: seq<byte>, password: seq<byte>, c: Credentials)
    returns (first: seq<byte>, second: seq<byte>, last: seq<byte>)
    requires Plain(c.username) && Plain(password) && Plain(verb) && Plain(c.uri)
    requires Plain(c.nonce) && Plain(c.nc) && Plain(c.cnonce)
    ensures Digest(sha, verb, password, c) == sha(last)
    ensures Split(last) == [Hex(sha(first)), c.nonce, c.nc, c.cnonce, QOP, Hex(sha(second))]
    ensures Split(first) == [c.username, REALM, password] && Split(second) == [verb, c.uri]
  {
    first, second := Who(password, c), What(verb, c);
    last := Input(sha(first), sha(second), c);
    SplitInput(sha(first), sha(second), c);
    SplitThree(c.username, REALM, password);
    SplitTwo(verb, c.uri);
  }

  lemma SplitTwo(a: seq<byte>, b: seq<byte>)
    requires Plain(a) && Plain(b)
    ensures Split(a + COLON + b) == [a, b]
  {
    SplitPlain(a);
    SplitField(a, b);
  }

  lemma SplitThree(a: seq<byte>, b: seq<byte>, c: seq<byte>)
    requires Plain(a) && Plain(b) && Plain(c)
    ensures Split(a + COLON + b + COLON + c) == [a, b, c]
  {
    SplitTwo(a, b);
    SplitField(a + COLON + b, c);
  }

  lemma SplitInput(who: seq<byte>, what: seq<byte>, c: Credentials)
    requires Plain(c.nonce) && Plain(c.nc) && Plain(c.cnonce)
    ensures Split(Input(who, what, c)) == [Hex(who), c.nonce, c.nc, c.cnonce, QOP, Hex(what)]
  {
    DigitsPlain(who);
    DigitsPlain(what);
    var one := Hex(who) + COLON + c.nonce;
    var two := one + COLON + c.nc;
    var three := two + COLON + c.cnonce;
    SplitPlain(Hex(who));
    SplitField(Hex(who), c.nonce);
    SplitField(one, c.nc);
    SplitField(two, c.cnonce);
    SplitField(three, QOP);
    SplitField(three + COLON + QOP, Hex(what));
  }

  /** The digits are those of the usual hexadecimal notation, the higher one first. */
  lemma DigitsOfBytes()
    ensures Hex([0x00, 0x1f, 0xab]) == [0x30, 0x30, 0x31, 0x66, 0x61, 0x62] // 001fab
  {
    var s: seq<byte> := [0x00, 0x1f, 0xab];
    assert Hex(s)[0] == Digit(s[0] / 16) && Hex(s)[1] == Digit(s[0] % 16);
  }
}
