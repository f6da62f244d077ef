/**
 * The rand_idx tool (src/tools/rand_idx/rand_idx.c): a group id given as
 * eight colon-separated hex bytes names the group's index file, whose
 * entries are then shuffled in place by random swaps.
 */
module RandIdx {
  import opened Wrappers
  import opened Text
  import opened Numbers

  /** 2^64, one more than the largest uint64_t. */
  const U64: nat := 0x1_0000_0000_0000_0000

  /** The directory holding the index files ("/opt/dir1"). */
  const IndexDir: string := "/opt/dir1"

  // ---------------------------------------------------------------------
  // parse_uint64_string

  /** Group i (0-based) holds two hex digits at offsets 3i and 3i+1. */
  predicate GroupDigits(s: seq<char>, i: nat)
  {
    3 * i + 1 < |s| && IsHexDigit(s[3 * i]) && IsHexDigit(s[3 * i + 1])
  }

  /**
   * What may follow group i: ':' after the first seven groups; ':' or the
   * end of the string after the eighth.
   */
  predicate GroupEnd(s: string, i: nat)
  {
    if i < 7 then 3 * i + 2 < |s| && s[3 * i + 2] == ':'
    else 3 * i + 2 == |s| || (3 * i + 2 < |s| && s[3 * i + 2] == ':')
  }

  /** A group id: eight groups of two hex digits, each followed as GroupEnd says. */
  predicate WellFormedGid(s: string)
  {
    forall i :: 0 <= i < 8 ==> GroupDigits(s, i) && GroupEnd(s, i)
  }

  /** The byte group i spells, as "%2x" reads it (either letter case). */
  function ByteAt(s: seq<char>, i: nat): (x: nat)
    requires GroupDigits(s, i)
    ensures x < 256
  {
    16 * HexValue(s[3 * i]) + HexValue(s[3 * i + 1])
  }

  /** The eight bytes of a group id, first group first. */
  function GidBytes(s: seq<char>): (bs: seq<nat>)
    requires forall i :: 0 <= i < 8 ==> GroupDigits(s, i)
    ensures |bs| == 8
    ensures forall i :: 0 <= i < 8 ==> bs[i] == ByteAt(s, i) && bs[i] < 256
  {
    seq(8, i requires 0 <= i < 8 => ByteAt(s, i))
  }

  /**
   * The meaning of parse_uint64_string on the C string s (the characters
   * before its terminator): the bytes read big-endian, or None where one
   * of its assertions fails.
   */
  function ParseGid(s: string): (r: Option<nat>)
    ensures r.Some? <==> WellFormedGid(s)
    ensures r.Some? ==> |s| >= 23
  {
    if WellFormedGid(s) then
      assert GroupDigits(s, 7);
      Some(Value(GidBytes(s), 256))
    else None
  }

  /**
   * parse_uint64_string: eight steps, each checking a group and its
   * separator and shifting the byte in (u <<= 8; u += x).
   */
  method ParseUint64String(s: string) returns (r: Option<nat>)
    ensures r == ParseGid(s)
  {
    var u: nat := 0;
    ghost var bytes: seq<nat> := [];
    for i := 0 to 8
      invariant |bytes| == i
      invariant forall k :: 0 <= k < i ==> GroupDigits(s, k) && GroupEnd(s, k) && bytes[k] == ByteAt(s, k)
      invariant u == Value(bytes, 256)
    {
      var o := 3 * i;
      if !(o + 1 < |s| && IsHexDigit(s[o]) && IsHexDigit(s[o + 1])) {
        assert !GroupDigits(s, i);
        return None;
      }
      var separated := if i < 7 then o + 2 < |s| && s[o + 2] == ':' else o + 2 == |s| || (o + 2 < |s| && s[o + 2] == ':');
      if !separated {
        assert !GroupEnd(s, i);
        return None;
      }
      var x := 16 * HexValue(s[o]) + HexValue(s[o + 1]);
      ValueSnoc(bytes, x, 256);
      u := u * 256 + x;
      bytes := bytes + [x];
    }
    assert bytes == GidBytes(s);
    r := Some(u);
  }

  /** 256^8 and 16^16 are both 2^64. */
  lemma PowU64()
    ensures Pow(256, 8) == U64 && Pow(16, 16) == U64
  {
    assert Pow(256, 4) == 0x1_0000_0000;
    assert Pow(16, 8) == 0x1_0000_0000;
  }

  /** A parsed group id fits in a uint64_t, so the shifts never overflow. */
  lemma ParseGidBound(s: string)
    requires ParseGid(s).Some?
    ensures ParseGid(s).value < U64
  {
    ValueBound(GidBytes(s), 256);
    PowU64();
  }

  // ---------------------------------------------------------------------
  // Rendering a group id

  /** Byte b as two hex digits ("%02x" or "%02X"). */
  function HexByte(b: nat, upper: bool): (s: string)
    requires b < 256
    ensures |s| == 2 && IsHexDigit(s[0]) && IsHexDigit(s[1])
    ensures 16 * HexValue(s[0]) + HexValue(s[1]) == b
  {
    if upper then [HexUpper(b / 16), HexUpper(b % 16)] else [HexLower(b / 16), HexLower(b % 16)]
  }

  /** The bytes as hex pairs joined by ':'. */
  function FormatBytes(bs: seq<nat>, upper: bool): (s: string)
    requires forall i :: 0 <= i < |bs| ==> bs[i] < 256
    decreases |bs|
  {
    if bs == [] then []
    else if |bs| == 1 then HexByte(bs[0], upper)
    else HexByte(bs[0], upper) + ":" + FormatBytes(bs[1..], upper)
  }

  /** FormatBytes has a pair per byte and a separator between pairs. */
  lemma {:induction false} FormatBytesLength(bs: seq<nat>, upper: bool)
    requires forall k :: 0 <= k < |bs| ==> bs[k] < 256
    requires bs != []
    ensures |FormatBytes(bs, upper)| == 3 * |bs| - 1
    decreases |bs|
  {
    if |bs| > 1 {
      FormatBytesLength(bs[1..], upper);
    }
  }

  /** After the first pair and its separator come the other bytes. */
  lemma FormatBytesTail(bs: seq<nat>, upper: bool)
    requires forall k :: 0 <= k < |bs| ==> bs[k] < 256
    requires |bs| > 1
    ensures |FormatBytes(bs, upper)| == |FormatBytes(bs[1..], upper)| + 3
    ensures FormatBytes(bs, upper)[3..] == FormatBytes(bs[1..], upper)
  {
    var h := HexByte(bs[0], upper);
    assert (h + ":" + FormatBytes(bs[1..], upper))[3..] == FormatBytes(bs[1..], upper);
  }

  /** Group i of t is group i + 1 of s when s is three characters and t. */
  lemma ShiftGroup(s: string, t: string, i: nat)
    requires |s| == |t| + 3 && s[3..] == t && GroupDigits(t, i)
    ensures GroupDigits(s, i + 1) && ByteAt(s, i + 1) == ByteAt(t, i)
    ensures 3 * i + 2 < |t| ==> s[3 * (i + 1) + 2] == t[3 * i + 2]
  {
    assert s[3 * (i + 1)] == t[3 * i] && s[3 * (i + 1) + 1] == t[3 * i + 1];
  }

  /** The first pair of FormatBytes, and the separator after it. */
  lemma FormatBytesFirst(bs: seq<nat>, upper: bool)
    requires forall k :: 0 <= k < |bs| ==> bs[k] < 256
    requires bs != []
    ensures |FormatBytes(bs, upper)| >= 2
    ensures GroupDigits(FormatBytes(bs, upper), 0) && ByteAt(FormatBytes(bs, upper), 0) == bs[0]
    ensures |bs| > 1 ==> |FormatBytes(bs, upper)| > 2 && FormatBytes(bs, upper)[2] == ':'
  {
    var s := FormatBytes(bs, upper);
    var h := HexByte(bs[0], upper);
    assert s[..2] == h;
  }

  /** Where each pair and separator of FormatBytes lies. */
  lemma {:induction false} FormatBytesAt(bs: seq<nat>, upper: bool, i: nat)
    requires forall k :: 0 <= k < |bs| ==> bs[k] < 256
    requires i < |bs|
    ensures |FormatBytes(bs, upper)| == 3 * |bs| - 1
    ensures GroupDigits(FormatBytes(bs, upper), i) && ByteAt(FormatBytes(bs, upper), i) == bs[i]
    ensures i + 1 < |bs| ==> FormatBytes(bs, upper)[3 * i + 2] == ':'
    decreases |bs|, 1
  {
    FormatBytesLength(bs, upper);
    if i == 0 {
      FormatBytesFirst(bs, upper);
    } else {
      FormatBytesLater(bs, upper, i);
    }
  }

  /** FormatBytesAt past the first pair: the pairs of the other bytes, shifted by three. */
  lemma {:induction false} FormatBytesLater(bs: seq<nat>, upper: bool, i: nat)
    requires forall k :: 0 <= k < |bs| ==> bs[k] < 256
    requires 0 < i < |bs|
    ensures GroupDigits(FormatBytes(bs, upper), i) && ByteAt(FormatBytes(bs, upper), i) == bs[i]
    ensures i + 1 < |bs| ==> 3 * i + 2 < |FormatBytes(bs, upper)| && FormatBytes(bs, upper)[3 * i + 2] == ':'
    decreases |bs|, 0
  {
    var rest := FormatBytes(bs[1..], upper);
    FormatBytesAt(bs[1..], upper, i - 1);
    FormatBytesTail(bs, upper);
    ShiftGroup(FormatBytes(bs, upper), rest, i - 1);
  }

  /** The gid as eight colon-separated hex bytes, most significant first. */
  function FormatGid(gid: nat, upper: bool): (s: string)
    ensures |s| == 23
  {
    var bs := Digits(gid, 256, 8);
    FormatBytesLength(bs, upper);
    FormatBytes(bs, upper)
  }

  /**
   * Parsing inverts rendering, in either letter case: a uint64 written as
   * eight colon-separated hex bytes is read back exactly.
   */
  lemma ParseFormatGid(gid: nat, upper: bool)
    requires gid < U64
    ensures WellFormedGid(FormatGid(gid, upper))
    ensures ParseGid(FormatGid(gid, upper)) == Some(gid)
  {
    var bs := Digits(gid, 256, 8);
    var s := FormatGid(gid, upper);
    forall i | 0 <= i < 8
      ensures GroupDigits(s, i) && GroupEnd(s, i) && ByteAt(s, i) == bs[i]
    {
      FormatBytesAt(bs, upper, i);
    }
    assert GidBytes(s) == bs;
    PowU64();
    ValueDigits(gid, 256, 8);
  }

  /** Upper- and lower-case renderings of a gid parse to the same value. */
  lemma ParseIgnoresCase(gid: nat)
    requires gid < U64
    ensures ParseGid(FormatGid(gid, true)) == ParseGid(FormatGid(gid, false))
  {
    ParseFormatGid(gid, true);
    ParseFormatGid(gid, false);
  }

  // ---------------------------------------------------------------------
  // parse_uint64_string as written (see Findings)

  /**
   * The check of line 36 as written: after any group, ':' or the string
   * terminator '\0'.
   */
  predicate GroupAsWritten(mem: seq<char>, i: nat)
    requires 3 * i + 2 < |mem|
  {
    GroupDigits(mem, i) && (mem[3 * i + 2] == ':' || mem[3 * i + 2] == '\0')
  }

  /**
   * parse_uint64_string as written, over the 24 bytes of memory from s on
   * that the loop may touch: a terminator after an early group passes the
   * check, and the next step reads past the end of the string.
   */
  function ParseAsWritten(mem: seq<char>): (r: Option<nat>)
    requires |mem| >= 24
    ensures r.Some? <==> forall i :: 0 <= i < 8 ==> GroupAsWritten(mem, i)
    ensures r.Some? ==> r.value < U64
  {
    if forall i :: 0 <= i < 8 ==> GroupAsWritten(mem, i)
    then
      assert forall i :: 0 <= i < 8 ==> GroupDigits(mem, i) by {
        forall i | 0 <= i < 8 ensures GroupDigits(mem, i) {
          assert GroupAsWritten(mem, i);
        }
      }
      ValueBound(GidBytes(mem), 256);
      PowU64();
      Some(Value(GidBytes(mem), 256))
    else None
  }

  /** On a well-formed group id, the code as written agrees with ParseGid. */
  lemma AsWrittenAgrees(s: string, rest: seq<char>)
    requires WellFormedGid(s)
    ensures |s| >= 23
    ensures ParseAsWritten(s + ['\0'] + rest) == ParseGid(s)
  {
    assert GroupEnd(s, 7);
    var mem := s + ['\0'] + rest;
    forall i | 0 <= i < 8
      ensures GroupAsWritten(mem, i) && ByteAt(mem, i) == ByteAt(s, i)
    {
      assert GroupDigits(s, i) && GroupEnd(s, i);
      assert mem[3 * i] == s[3 * i] && mem[3 * i + 1] == s[3 * i + 1];
    }
    assert forall i :: 0 <= i < 8 ==> GroupDigits(mem, i) by {
      forall i | 0 <= i < 8 ensures GroupDigits(mem, i) {
        assert GroupAsWritten(mem, i);
      }
    }
    assert GidBytes(mem) == GidBytes(s);
  }

  /** The bytes 1 to 8, big-endian. */
  lemma ValueOneToEight()
    ensures Value([1, 2, 3, 4, 5, 6, 7, 8], 256) == 0x0102030405060708
  {
    ValueSnoc([], 1, 256);
    assert [] + [1] == [1];
    ValueSnoc([1], 2, 256);
    assert [1] + [2] == [1, 2];
    ValueSnoc([1, 2], 3, 256);
    assert [1, 2] + [3] == [1, 2, 3];
    ValueSnoc([1, 2, 3], 4, 256);
    assert [1, 2, 3] + [4] == [1, 2, 3, 4];
    ValueSnoc([1, 2, 3, 4], 5, 256);
    assert [1, 2, 3, 4] + [5] == [1, 2, 3, 4, 5];
    ValueSnoc([1, 2, 3, 4, 5], 6, 256);
    assert [1, 2, 3, 4, 5] + [6] == [1, 2, 3, 4, 5, 6];
    ValueSnoc([1, 2, 3, 4, 5, 6], 7, 256);
    assert [1, 2, 3, 4, 5, 6] + [7] == [1, 2, 3, 4, 5, 6, 7];
    ValueSnoc([1, 2, 3, 4, 5, 6, 7], 8, 256);
    assert [1, 2, 3, 4, 5, 6, 7] + [8] == [1, 2, 3, 4, 5, 6, 7, 8];
  }

  /** The string "01", its terminator, and then the text of the rest of a group id. */
  const PastEndMemory: seq<char> := "01\0" + "02:03:04:05:06:07:08\0"

  /** Each group of PastEndMemory passes the check as written; group i holds i + 1. */
  lemma PastEndGroup(i: nat)
    requires i < 8
    ensures |PastEndMemory| == 24
    ensures GroupAsWritten(PastEndMemory, i) && ByteAt(PastEndMemory, i) == i + 1
  {
    var m := PastEndMemory;
    assert m[3 * i] == '0' && m[3 * i + 1] == DigitChar(i + 1);
  }

  /**
   * "01" alone is not a group id, but in memory followed by its terminator
   * and the rest of an id the code as written returns 0x0102030405060708.
   */
  lemma AsWrittenReadsPastEnd()
    ensures ParseGid("01") == None
    ensures ParseAsWritten(PastEndMemory) == Some(0x0102030405060708)
  {
    assert !GroupDigits("01", 1);
    PastEndGroup(0);
    forall i | 0 <= i < 8
      ensures GroupAsWritten(PastEndMemory, i) && ByteAt(PastEndMemory, i) == i + 1
    {
      PastEndGroup(i);
    }
    assert GidBytes(PastEndMemory) == [1, 2, 3, 4, 5, 6, 7, 8];
    ValueOneToEight();
  }

  // ---------------------------------------------------------------------
  // The index file name

  /** The gid as 16 zero-padded upper-case hex digits ("%016llX"). */
  function Hex16(gid: nat): (s: string)
    ensures |s| == 16
    ensures forall i :: 0 <= i < 16 ==> IsHexDigit(s[i]) && !('a' <= s[i] <= 'f')
  {
    var ds := Digits(gid, 16, 16);
    seq(16, i requires 0 <= i < 16 => HexUpper(ds[i]))
  }

  /** The values of a run of hex digits. */
  function HexValues(s: string): (ds: seq<nat>)
    requires forall i :: 0 <= i < |s| ==> IsHexDigit(s[i])
    ensures |ds| == |s|
  {
    seq(|s|, i requires 0 <= i < |s| => HexValue(s[i]))
  }

  /** sprintf(idx_file, "%s/%s%016llX", path, GID_IDX, gid), the prefix GID_IDX as a parameter. */
  function IndexFileName(prefix: string, gid: nat): (name: string)
    ensures |name| == |IndexDir| + 1 + |prefix| + 16
    ensures name[..|IndexDir| + 1 + |prefix|] == IndexDir + "/" + prefix
  {
    IndexDir + "/" + prefix + Hex16(gid)
  }

  /**
   * The index file name is the directory, the prefix, and then exactly 16
   * upper-case hex digits that read back as the gid.
   */
  lemma IndexFileNameGid(prefix: string, gid: nat)
    requires gid < U64
    ensures var name := IndexFileName(prefix, gid);
            |name| == |IndexDir| + 1 + |prefix| + 16 &&
            name[..|IndexDir| + 1 + |prefix|] == IndexDir + "/" + prefix &&
            name[|name| - 16..] == Hex16(gid) &&
            Value(HexValues(Hex16(gid)), 16) == gid
  {
    var ds := Digits(gid, 16, 16);
    assert HexValues(Hex16(gid)) == ds;
    PowU64();
    ValueDigits(gid, 16, 16);
  }

  /** Different uint64 gids name different index files. */
  lemma IndexFileNameInjective(prefix: string, g1: nat, g2: nat)
    requires g1 < U64 && g2 < U64
    requires IndexFileName(prefix, g1) == IndexFileName(prefix, g2)
    ensures g1 == g2
  {
    IndexFileNameGid(prefix, g1);
    IndexFileNameGid(prefix, g2);
  }

  /** The -g argument written as a gid names that gid's index file. */
  lemma GidArgumentIndexFile(prefix: string, gid: nat, upper: bool)
    requires gid < U64
    ensures ParseGid(FormatGid(gid, upper)).Some?
    ensures IndexFileName(prefix, ParseGid(FormatGid(gid, upper)).value) == IndexFileName(prefix, gid)
  {
    ParseFormatGid(gid, upper);
  }

  // ---------------------------------------------------------------------
  // The shuffle

  /** s with entries j and k exchanged. */
  function Swap<T>(s: seq<T>, j: nat, k: nat): (t: seq<T>)
    requires j < |s| && k < |s|
    ensures |t| == |s| && t[j] == s[k] && t[k] == s[j]
    ensures forall i :: 0 <= i < |s| && i != j && i != k ==> t[i] == s[i]
    ensures multiset(t) == multiset(s)
  {
    s[j := s[k]][k := s[j]]
  }

  /** Every pick indexes the buffer. */
  predicate PicksIn(picks: seq<(nat, nat)>, n: nat)
  {
    forall i :: 0 <= i < |picks| ==> picks[i].0 < n && picks[i].1 < n
  }

  /** The buffer after one iteration per pick: swap the two entries unless they are the same. */
  function ApplySwaps<T>(s: seq<T>, picks: seq<(nat, nat)>): (t: seq<T>)
    requires PicksIn(picks, |s|)
    ensures |t| == |s|
    decreases |picks|
  {
    if picks == [] then s
    else
      var last := |picks| - 1;
      var t := ApplySwaps(s, picks[..last]);
      var (j, k) := picks[last];
      if j == k then t else Swap(t, j, k)
  }

  /** The shuffle only exchanges entries: the result is a permutation of its input. */
  lemma {:induction false} ShufflePermutes<T>(s: seq<T>, picks: seq<(nat, nat)>)
    requires PicksIn(picks, |s|)
    ensures multiset(ApplySwaps(s, picks)) == multiset(s)
    decreases |picks|
  {
    if picks != [] {
      ShufflePermutes(s, picks[..|picks| - 1]);
    }
  }

  /** Picks that name the same entry twice leave the buffer as it was. */
  lemma {:induction false} SelfPicksChangeNothing<T>(s: seq<T>, picks: seq<(nat, nat)>)
    requires PicksIn(picks, |s|)
    requires forall i :: 0 <= i < |picks| ==> picks[i].0 == picks[i].1
    ensures ApplySwaps(s, picks) == s
    decreases |picks|
  {
    if picks != [] {
      SelfPicksChangeNothing(s, picks[..|picks| - 1]);
    }
  }

  /**
   * The swap loop of main: nstat iterations, the i-th exchanging the
   * entries at the two random indices picks[i] (get_rand's results are
   * inputs here) unless they coincide.
   */
  method Shuffle<T>(buf: array<T>, picks: seq<(nat, nat)>)
    requires |picks| == buf.Length && PicksIn(picks, buf.Length)
    modifies buf
    ensures buf[..] == ApplySwaps(old(buf[..]), picks)
    ensures multiset(buf[..]) == multiset(old(buf[..]))
  {
    for i := 0 to buf.Length
      invariant buf[..] == ApplySwaps(old(buf[..]), picks[..i])
    {
      var (j, k) := picks[i];
      assert picks[..i + 1][..i] == picks[..i];
      if j == k {
        continue;
      }
      var entry := buf[j];
      buf[j] := buf[k];
      buf[k] := entry;
    }
    assert picks[..buf.Length] == picks;
    ShufflePermutes(old(buf[..]), picks);
  }
}
