/**
 Matching a file with a reported digest: exactly, or with its line ends converted while the digest
 is fed.
 */
module Digests {
  import opened Sequences
  import opened Newlines

  datatype Matching = Mismatch | Exactly | WithDifferentNewlines

  /** A digest of everything it is fed. */
  class Digest {
    const hash: string -> seq<nat>
    var fed: string

    constructor (hash: string -> seq<nat>)
      ensures this.hash == hash && fed == ""
    {
      this.hash := hash;
      fed := "";
    }

    method Update(chunk: string)
      modifies this
      ensures fed == old(fed) + chunk
    {
      fed := fed + chunk;
    }

    method Finalize() returns (digest: seq<nat>)
      ensures digest == hash(fed)
    {
      digest := hash(fed);
    }
  }

  // ---------------------------------------------------------------------------
  // The reported digest

  function Nybble(c: char): nat {
    if '0' <= c <= '9' then (c - '0') as nat
    else if 'a' <= c <= 'f' then (c - 'a') as nat + 10
    else if 'A' <= c <= 'F' then (c - 'A') as nat + 10
    else 16
  }

  function HexDigit(n: nat): char
    requires n < 16
  {
    if n < 10 then '0' + n as char else 'a' + (n - 10) as char
  }

  /** The sixteen digits in order; on reading, capital letters count the same. */
  lemma DigitsAreHex(n: nat)
    requires n < 16
    ensures HexDigit(n) == "0123456789abcdef"[n]
    ensures Nybble("0123456789abcdef"[n]) == n == Nybble("0123456789ABCDEF"[n])
  {
  }

  const HEX_DIGITS := "0123456789abcdefABCDEF"

  lemma OnlyHexCounts(c: char)
    ensures Nybble(c) < 16 <==> c in HEX_DIGITS
  {
  }

  /** The two digits behind position `2 * i` stand for the byte. */
  predicate SpellsByte(text: string, i: nat, byte: nat) {
    && 2 * i + 1 < |text| && Nybble(text[2 * i]) < 16 && Nybble(text[2 * i + 1]) < 16
    && byte == Nybble(text[2 * i]) * 16 + Nybble(text[2 * i + 1])
  }

  /** The text stands for these bytes. */
  predicate Spells(text: string, bytes: seq<nat>) {
    |text| == 2 * |bytes| && forall i | 0 <= i < |bytes| :: SpellsByte(text, i, bytes[i])
  }

  /** All of the right length that is hexadecimal stands for bytes, and nothing else does. */
  predicate IsHex(text: string, size: nat) {
    |text| == 2 * size && forall i | 0 <= i < |text| :: text[i] in HEX_DIGITS
  }

  lemma HexIsNeeded(text: string, bytes: seq<nat>)
    requires Spells(text, bytes)
    ensures IsHex(text, |bytes|)
  {
    hide Nybble;
    forall i | 0 <= i < |text|
      ensures text[i] in HEX_DIGITS
    {
      assert SpellsByte(text, i / 2, bytes[i / 2]);
      assert i == 2 * (i / 2) || i == 2 * (i / 2) + 1;
      OnlyHexCounts(text[i]);
    }
  }

  method ParseDigest(text: string, size: nat) returns (valid: bool, digest: seq<nat>)
    ensures valid ==> |digest| == size && Spells(text, digest)
    ensures !valid ==> forall bytes | |bytes| == size :: !Spells(text, bytes)
    ensures valid <==> IsHex(text, size)
  {
    digest := [];
    if |text| != size * 2 {
      return false, digest;
    }
    for index := 0 to size
      invariant |digest| == index && forall i | 0 <= i < index :: SpellsByte(text, i, digest[i])
    {
      var upper, lower := Nybble(text[2 * index]), Nybble(text[2 * index + 1]);
      if upper > 15 || lower > 15 {
        forall bytes | |bytes| == size
          ensures !Spells(text, bytes)
        {
          assert !SpellsByte(text, index, bytes[index]);
        }
        OnlyHexCounts(text[2 * index]);
        OnlyHexCounts(text[2 * index + 1]);
        return false, digest;
      }
      assert SpellsByte(text, index, upper * 16 + lower);
      digest := digest + [upper * 16 + lower];
    }
    valid := true;
    HexIsNeeded(text, digest);
  }

  lemma OneSpelling(text: string, a: seq<nat>, b: seq<nat>)
    requires Spells(text, a) && Spells(text, b)
    ensures a == b
  {
    forall i | 0 <= i < |a|
      ensures a[i] == b[i]
    {
      assert SpellsByte(text, i, a[i]) && SpellsByte(text, i, b[i]);
    }
  }

  function Hex(bytes: seq<nat>): string
    requires forall i | 0 <= i < |bytes| :: bytes[i] < 256
  {
    if bytes == [] then "" else [HexDigit(bytes[0] / 16), HexDigit(bytes[0] % 16)] + Hex(bytes[1..])
  }

  lemma NybbleOfDigit(n: nat)
    requires n < 16
    ensures Nybble(HexDigit(n)) == n
  {
  }

  /** A digest written in hexadecimal is read back. */
  lemma {:induction false} HexSpells(bytes: seq<nat>)
    requires forall i | 0 <= i < |bytes| :: bytes[i] < 256
    ensures Spells(Hex(bytes), bytes)
    decreases |bytes|
  {
    if bytes == [] {
    } else {
      var rest, text := Hex(bytes[1..]), Hex(bytes);
      HexSpells(bytes[1..]);
      NybbleOfDigit(bytes[0] / 16);
      NybbleOfDigit(bytes[0] % 16);
      forall i | 0 <= i < |bytes|
        ensures SpellsByte(text, i, bytes[i])
      {
        if i > 0 {
          assert SpellsByte(rest, i - 1, bytes[1..][i - 1]);
          assert text[2 * i] == rest[2 * (i - 1)] && text[2 * i + 1] == rest[2 * (i - 1) + 1];
        }
      }
    }
  }

  // ---------------------------------------------------------------------------
  // Feeding the converted text

  function NextLf(s: string, i: nat): (r: nat)
    requires i <= |s|
    ensures i <= r <= |s| && (r < |s| ==> s[r] == '\n')
    decreases |s| - i
  {
    if i == |s| || s[i] == '\n' then i else NextLf(s, i + 1)
  }

  function NextCrlf(s: string): (r: nat)
    ensures r <= |s| && (r < |s| ==> r + 1 < |s| && s[r] == '\r' && s[r + 1] == '\n')
  {
    if s == "" || StartsCrlf(s) then 0 else 1 + NextCrlf(s[1..])
  }

  predicate ReturnBefore(s: string, i: nat)
    requires i <= |s|
  {
    i > 0 && s[i - 1] == '\r'
  }

  /** The conversion leaves the first `i` characters as they are. */
  predicate Kept(s: string, i: nat)
    requires i <= |s|
  {
    ToCrlf(s, false) == s[..i] + ToCrlf(s[i..], ReturnBefore(s, i))
  }

  lemma KeptNext(s: string, i: nat)
    requires i < |s| && Kept(s, i) && (s[i] != '\n' || ReturnBefore(s, i))
    ensures Kept(s, i + 1)
  {
    hide ToCrlf;
    assert s[i..] == [s[i]] + s[i + 1..] && s[..i + 1] == s[..i] + [s[i]];
    CrlfFront(s[i], s[i + 1..], ReturnBefore(s, i));
    Reassociate(s[..i], s[i], ToCrlf(s[i + 1..], s[i] == '\r'));
  }

  lemma {:induction false} KeptToLf(s: string, i: nat)
    requires i <= |s| && Kept(s, i)
    ensures Kept(s, NextLf(s, i))
    decreases |s| - i
  {
    if i < |s| && s[i] != '\n' {
      KeptNext(s, i);
      KeptToLf(s, i + 1);
    }
  }

  lemma NothingKept(s: string)
    ensures Kept(s, 0)
  {
    assert s[0..] == s && s[..0] + ToCrlf(s, false) == ToCrlf(s, false);
  }

  lemma Associative(a: string, b: string, c: string)
    ensures a + (b + c) == a + b + c
  {
  }

  /** A bare line feed is replaced. */
  lemma Replaced(s: string, i: nat)
    requires i < |s| && Kept(s, i) && s[i] == '\n' && !ReturnBefore(s, i)
    ensures ToCrlf(s, false) == s[..i] + "\r\n" + ToCrlf(s[i + 1..], false)
  {
    assert s[i..] == [s[i]] + s[i + 1..];
    CrlfFront(s[i], s[i + 1..], false);
    assert ToCrlf(s[i..], false) == "\r\n" + ToCrlf(s[i + 1..], false);
    Associative(s[..i], "\r\n", ToCrlf(s[i + 1..], false));
  }

  lemma Fed(fed: string, a: string, b: string, rest: string)
    ensures fed + (a + b + rest) == (fed + a + b) + rest
  {
  }

  method FeedCrlf(sum: Digest, data: string)
    modifies sum
    ensures sum.fed == old(sum.fed) + ToCrlf(data, false)
  {
    var chars := data;
    var pos: nat := NextLf(chars, 0);
    ghost var all := sum.fed + ToCrlf(data, false);
    NothingKept(chars);
    KeptToLf(chars, 0);
    while pos != |chars|
      invariant pos <= |chars| && (pos < |chars| ==> chars[pos] == '\n') && Kept(chars, pos)
      invariant sum.fed + ToCrlf(chars, false) == all
      decreases |chars|, |chars| - pos
    {
      if pos == 0 || chars[pos - 1] != '\r' {
        Replaced(chars, pos);
        Fed(sum.fed, chars[..pos], "\r\n", ToCrlf(chars[pos + 1..], false));
        sum.Update(chars[..pos]);
        sum.Update("\r\n");
        chars := chars[pos + 1..];
        pos := NextLf(chars, 0);
        NothingKept(chars);
        KeptToLf(chars, 0);
      } else {
        KeptNext(chars, pos);
        KeptToLf(chars, pos + 1);
        pos := NextLf(chars, pos + 1);
      }
    }
    assert chars[..|chars|] == chars && chars[|chars|..] == "";
    sum.Update(chars);
  }

  lemma OneFurther(s: string, i: nat)
    requires s != "" && i + 2 <= |s[1..]|
    ensures [s[0]] + (s[1..][..i] + "\n" + ToLf(s[1..][i + 2..])) == s[..i + 1] + "\n" + ToLf(s[i + 3..])
  {
    assert s[1..][i + 2..] == s[i + 3..] && [s[0]] + s[1..][..i] == s[..i + 1];
    Associative([s[0]], s[1..][..i] + "\n", ToLf(s[i + 3..]));
    Associative([s[0]], s[1..][..i], "\n");
  }

  lemma {:induction false} LfKept(s: string)
    ensures var i := NextCrlf(s);
            ToLf(s) == if i == |s| then s else s[..i] + "\n" + ToLf(s[i + 2..])
    decreases |s|
  {
    if s == "" {
    } else if StartsCrlf(s) {
      assert s[..0] == "" && "" + "\n" == "\n";
    } else {
      var i := NextCrlf(s[1..]);
      LfKept(s[1..]);
      if i < |s[1..]| {
        OneFurther(s, i);
      } else {
        assert s == [s[0]] + s[1..];
      }
    }
  }

  method FeedLf(sum: Digest, data: string)
    modifies sum
    ensures sum.fed == old(sum.fed) + ToLf(data)
  {
    var chars := data;
    var pos: nat := NextCrlf(chars);
    ghost var all := sum.fed + ToLf(data);
    while pos != |chars|
      invariant pos == NextCrlf(chars)
      invariant sum.fed + ToLf(chars) == all
      decreases |chars|
    {
      LfKept(chars);
      Fed(sum.fed, chars[..pos], "\n", ToLf(chars[pos + 2..]));
      sum.Update(chars[..pos]);
      sum.Update("\n");
      chars := chars[pos + 2..];
      pos := NextCrlf(chars);
    }
    LfKept(chars);
    sum.Update(chars);
  }

  // ---------------------------------------------------------------------------
  // Matching

  function Verdict(hash: string -> seq<nat>, digest: seq<nat>, data: string): Matching {
    if hash(data) == digest then Exactly
    else if hash(ToCrlf(data, false)) == digest || hash(ToLf(data)) == digest then WithDifferentNewlines
    else Mismatch
  }

  /** The text spells the digest of some content. */
  ghost predicate Reports(hash: string -> seq<nat>, size: nat, reported: string, content: string) {
    |hash(content)| == size && Spells(reported, hash(content))
  }

  /** The content does not share its digest with a different text among the data and its conversions. */
  ghost predicate NoCollision(hash: string -> seq<nat>, content: string, data: string) {
    && (hash(content) == hash(data) ==> content == data)
    && (hash(content) == hash(ToCrlf(data, false)) ==> content == ToCrlf(data, false))
    && (hash(content) == hash(ToLf(data)) ==> content == ToLf(data))
  }

  predicate SameOrConverted(content: string, data: string) {
    content == data || content == ToCrlf(data, false) || content == ToLf(data)
  }

  /** Apart from collisions, a file matches exactly the report of its own content or of one of its
      two conversions. */
  method Match(hash: string -> seq<nat>, size: nat, reported: string, data: string) returns (matching: Matching)
    ensures forall content | Reports(hash, size, reported, content) && NoCollision(hash, content, data) ::
              && (matching == Exactly <==> content == data)
              && (matching != Mismatch <==> SameOrConverted(content, data))
    ensures forall digest | |digest| == size && Spells(reported, digest) :: matching == Verdict(hash, digest, data)
    ensures (forall digest | |digest| == size :: !Spells(reported, digest)) ==> matching == Mismatch
  {
    var valid, expected := ParseDigest(reported, size);
    if !valid {
      return Mismatch;
    }
    forall digest | |digest| == size && Spells(reported, digest)
      ensures digest == expected
    {
      OneSpelling(reported, digest, expected);
    }
    if hash(data) == expected {
      return Exactly;
    }
    var sum := new Digest(hash);
    FeedCrlf(sum, data);
    assert sum.fed == ToCrlf(data, false);
    var digest := sum.Finalize();
    if digest == expected {
      return WithDifferentNewlines;
    }
    sum := new Digest(hash);
    FeedLf(sum, data);
    assert sum.fed == ToLf(data);
    digest := sum.Finalize();
    if digest == expected {
      return WithDifferentNewlines;
    }
    matching := Mismatch;
  }

  lemma {:induction false} LfShortens(s: string)
    ensures |ToLf(s)| <= |s| && (|ToLf(s)| == |s| <==> NoCrlf(s)) && (NoCrlf(s) ==> ToLf(s) == s)
    decreases |s|
  {
    if s == "" {
    } else {
      if StartsCrlf(s) {
        LfShortens(s[2..]);
      } else {
        LfShortens(s[1..]);
      }
    }
  }

  /** The LF form of a file matches the report of the file exactly if there was nothing to convert or
      all its lines end alike; the file always matches the report of its LF form. */
  lemma LfFormMatches(hash: string -> seq<nat>, s: string)
    ensures NoCrlf(s) || Consistent(s, 0) ==> Verdict(hash, hash(s), ToLf(s)) != Mismatch
    ensures NoCollision(hash, s, ToLf(s)) && Verdict(hash, hash(s), ToLf(s)) != Mismatch ==> NoCrlf(s) || Consistent(s, 0)
    ensures Verdict(hash, hash(ToLf(s)), s) != Mismatch
  {
    BackToCrlf(s, false);
    LfShortens(s);
    LfShortens(ToLf(s));
  }
}
