/**
 Evidence references of imported tickets: written by the importer
 (cygnus/governance/ticket_import.py), read back by the pilot report
 (cygnus/governance/ticket_pilot.py).
 */
module TicketRefs {
  import opened Wrappers

  const MARKER := "#ticket="

  // ---------------------------------------------------------------- percent-encoding

  predicate Unreserved(c: char) {
    'A' <= c <= 'Z' || 'a' <= c <= 'z' || '0' <= c <= '9' || c == '-' || c == '.' || c == '_' || c == '~'
  }

  type Byte = b: int | 0 <= b < 256

  function HexDigit(n: int): char
    requires 0 <= n < 16
  {
    if n < 10 then '0' + n as char else 'A' + (n - 10) as char
  }

  function HexValue(c: char): Option<int> {
    if '0' <= c <= '9' then Some(c as int - '0' as int)
    else if 'A' <= c <= 'F' then Some(c as int - 'A' as int + 10)
    else None
  }

  function Percent(b: Byte): (s: string)
    ensures |s| == 3
  {
    ['%', HexDigit(b / 16), HexDigit(b % 16)]
  }

  /** The UTF-8 bytes of one character, each percent-encoded (section 2.1 of RFC 3986). */
  function QuoteChar(c: char): string {
    if Unreserved(c) then [c]
    else
      var n := c as int;
      var n1 := n / 64;
      var n2 := n1 / 64;
      if n < 0x80 then Percent(n)
      else if n < 0x800 then Percent(0xC0 + n1) + Percent(0x80 + n % 64)
      else if n < 0x10000 then Percent(0xE0 + n2) + Percent(0x80 + n1 % 64) + Percent(0x80 + n % 64)
      else Percent(0xF0 + n2 / 64) + Percent(0x80 + n2 % 64) + Percent(0x80 + n1 % 64) + Percent(0x80 + n % 64)
  }

  /** Percent-encoding with no extra safe characters. */
  function Quote(s: string): string {
    if s == [] then [] else QuoteChar(s[0]) + Quote(s[1..])
  }

  /** One percent-encoded byte at position `at`. */
  function ByteAt(s: string, at: nat): Option<Byte> {
    if at + 3 > |s| || s[at] != '%' then None
    else
      var hi, lo := HexValue(s[at + 1]), HexValue(s[at + 2]);
      if hi.None? || lo.None? then None else Some(hi.value * 16 + lo.value)
  }

  predicate Scalar(n: int) { 0 <= n < 0xD800 || 0xE000 <= n < 0x110000 }

  function CharOf(n: int, length: nat): Option<(char, nat)> {
    if Scalar(n) then Some((n as char, length)) else None
  }

  /** The first encoded character and the length of its encoding. */
  function FirstChar(s: string): (r: Option<(char, nat)>)
    ensures r.Some? ==> 0 < r.value.1 <= |s|
  {
    if s == [] then None
    else if s[0] != '%' then Some((s[0], 1))
    else
      var b0 := ByteAt(s, 0);
      if b0.None? then None
      else if b0.value < 0x80 then CharOf(b0.value, 3)
      else
        var b1 := ByteAt(s, 3);
        if b1.None? then None
        else if b0.value < 0xE0 then CharOf((b0.value - 0xC0) * 64 + (b1.value - 0x80), 6)
        else
          var b2 := ByteAt(s, 6);
          if b2.None? then None
          else if b0.value < 0xF0 then CharOf(((b0.value - 0xE0) * 64 + (b1.value - 0x80)) * 64 + (b2.value - 0x80), 9)
          else
            var b3 := ByteAt(s, 9);
            if b3.None? then None
            else CharOf((((b0.value - 0xF0) * 64 + (b1.value - 0x80)) * 64 + (b2.value - 0x80)) * 64
                        + (b3.value - 0x80), 12)
  }

  function Unquote(s: string): Option<string>
    decreases |s|
  {
    if s == [] then Some("")
    else
      var first := FirstChar(s);
      if first.None? then None
      else
        var rest := Unquote(s[first.value.1..]);
        if rest.None? then None else Some([first.value.0] + rest.value)
  }

  lemma ByteReadsBack(s: string, at: nat, b: Byte)
    requires at + 3 <= |s| && s[at..at + 3] == Percent(b)
    ensures ByteAt(s, at) == Some(b)
  {
    assert s[at] == s[at..at + 3][0] && s[at + 1] == s[at..at + 3][1] && s[at + 2] == s[at..at + 3][2];
    assert HexValue(HexDigit(b / 16)) == Some(b / 16) && HexValue(HexDigit(b % 16)) == Some(b % 16);
  }

  lemma ShortReadsBack(a: Byte, b: Byte, rest: string)
    ensures ByteAt(Percent(a) + rest, 0) == Some(a)
    ensures var s := Percent(a) + Percent(b) + rest;
            ByteAt(s, 0) == Some(a) && ByteAt(s, 3) == Some(b)
  {
    ByteReadsBack(Percent(a) + rest, 0, a);
    var s := Percent(a) + Percent(b) + rest;
    ByteReadsBack(s, 0, a);
    ByteReadsBack(s, 3, b);
  }

  lemma LongReadsBack(a: Byte, b: Byte, c: Byte, rest: string)
    ensures var s := Percent(a) + Percent(b) + Percent(c) + rest;
            ByteAt(s, 0) == Some(a) && ByteAt(s, 3) == Some(b) && ByteAt(s, 6) == Some(c)
  {
    var s := Percent(a) + Percent(b) + Percent(c) + rest;
    ByteReadsBack(s, 0, a);
    ByteReadsBack(s, 3, b);
    ByteReadsBack(s, 6, c);
  }

  /** What the decoder makes of bytes it has read. */
  function Assembled(b0: Byte, b1: Byte, b2: Byte, b3: Byte): Option<(char, nat)> {
    if b0 < 0x80 then CharOf(b0, 3)
    else if b0 < 0xE0 then CharOf((b0 - 0xC0) * 64 + (b1 - 0x80), 6)
    else if b0 < 0xF0 then CharOf(((b0 - 0xE0) * 64 + (b1 - 0x80)) * 64 + (b2 - 0x80), 9)
    else CharOf((((b0 - 0xF0) * 64 + (b1 - 0x80)) * 64 + (b2 - 0x80)) * 64 + (b3 - 0x80), 12)
  }

  lemma {:induction false} FirstCharAssembles(s: string, b0: Byte, b1: Byte, b2: Byte, b3: Byte)
    requires ByteAt(s, 0) == Some(b0)
    requires b0 >= 0x80 ==> ByteAt(s, 3) == Some(b1)
    requires b0 >= 0xE0 ==> ByteAt(s, 6) == Some(b2)
    requires b0 >= 0xF0 ==> ByteAt(s, 9) == Some(b3)
    ensures FirstChar(s) == Assembled(b0, b1, b2, b3)
  {
  }

  lemma ShortCharReadsBack(c: char, rest: string)
    requires !Unreserved(c) && c as int < 0x800
    ensures FirstChar(QuoteChar(c) + rest) == Some((c, |QuoteChar(c)|))
  {
    var n, s := c as int, QuoteChar(c) + rest;
    if n < 0x80 {
      ShortReadsBack(n, 0, rest);
      FirstCharAssembles(s, n, 0, 0, 0);
    } else {
      ShortReadsBack(0xC0 + n / 64, 0x80 + n % 64, rest);
      FirstCharAssembles(s, 0xC0 + n / 64, 0x80 + n % 64, 0, 0);
    }
  }

  lemma ThreeByteCharReadsBack(c: char, rest: string)
    requires 0x800 <= c as int < 0x10000
    ensures FirstChar(QuoteChar(c) + rest) == Some((c, |QuoteChar(c)|))
  {
    var n := c as int;
    var n1 := n / 64;
    var b0, b1, b2 := 0xE0 + n1 / 64, 0x80 + n1 % 64, 0x80 + n % 64;
    assert QuoteChar(c) == Percent(b0) + Percent(b1) + Percent(b2);
    LongReadsBack(b0, b1, b2, rest);
    FirstCharAssembles(QuoteChar(c) + rest, b0, b1, b2, 0);
    assert Assembled(b0, b1, b2, 0) == CharOf(n, 9);
  }

  lemma FourBytesReadBack(b0: Byte, b1: Byte, b2: Byte, b3: Byte, rest: string)
    requires b0 >= 0xF0
    ensures FirstChar(Percent(b0) + Percent(b1) + Percent(b2) + Percent(b3) + rest) == Assembled(b0, b1, b2, b3)
  {
    var s := Percent(b0) + Percent(b1) + Percent(b2) + Percent(b3) + rest;
    ByteReadsBack(s, 0, b0);
    ByteReadsBack(s, 3, b1);
    ByteReadsBack(s, 6, b2);
    ByteReadsBack(s, 9, b3);
    FirstCharAssembles(s, b0, b1, b2, b3);
  }

  lemma FourDigits(n: int)
    requires 0x10000 <= n < 0x110000
    ensures n == ((n / 64 / 64 / 64 * 64 + n / 64 / 64 % 64) * 64 + n / 64 % 64) * 64 + n % 64
    ensures n / 64 / 64 / 64 < 16
  {
  }

  lemma AssemblesFour(n: int)
    requires 0x10000 <= n < 0x110000
    ensures 0xF0 + n / 64 / 64 / 64 < 256
    ensures Assembled(0xF0 + n / 64 / 64 / 64, 0x80 + n / 64 / 64 % 64, 0x80 + n / 64 % 64, 0x80 + n % 64)
            == CharOf(n, 12)
  {
    FourDigits(n);
  }

  lemma QuoteFour(c: char, b0: Byte, b1: Byte, b2: Byte, b3: Byte)
    requires 0x10000 <= c as int
    requires var n := c as int;
             b0 == 0xF0 + n / 64 / 64 / 64 && b1 == 0x80 + n / 64 / 64 % 64 && b2 == 0x80 + n / 64 % 64
             && b3 == 0x80 + n % 64
    ensures QuoteChar(c) == Percent(b0) + Percent(b1) + Percent(b2) + Percent(b3)
  {
  }

  lemma FourByteCharReadsBack(c: char, rest: string)
    requires 0x10000 <= c as int
    ensures FirstChar(QuoteChar(c) + rest) == Some((c, |QuoteChar(c)|))
  {
    var n := c as int;
    AssemblesFour(n);
    var b0, b1, b2, b3 := 0xF0 + n / 64 / 64 / 64, 0x80 + n / 64 / 64 % 64, 0x80 + n / 64 % 64, 0x80 + n % 64;
    QuoteFour(c, b0, b1, b2, b3);
    FourBytesReadBack(b0, b1, b2, b3, rest);
  }

  lemma CharReadsBack(c: char, rest: string)
    ensures FirstChar(QuoteChar(c) + rest) == Some((c, |QuoteChar(c)|))
  {
    if Unreserved(c) {
    } else if c as int < 0x800 {
      ShortCharReadsBack(c, rest);
    } else if c as int < 0x10000 {
      ThreeByteCharReadsBack(c, rest);
    } else {
      FourByteCharReadsBack(c, rest);
    }
  }

  /** Percent-encoding loses nothing, for every text. */
  lemma {:induction false} UnquoteInvertsQuote(s: string)
    ensures Unquote(Quote(s)) == Some(s)
  {
    if s != [] {
      var q := QuoteChar(s[0]) + Quote(s[1..]);
      CharReadsBack(s[0], Quote(s[1..]));
      assert q[|QuoteChar(s[0])|..] == Quote(s[1..]);
      UnquoteInvertsQuote(s[1..]);
      assert q != [] && s == [s[0]] + s[1..];
    }
  }

  lemma PercentHasNoHash(b: Byte)
    ensures '#' !in Percent(b)
  {
    assert HexDigit(b / 16) != '#' && HexDigit(b % 16) != '#';
  }

  lemma QuoteCharHasNoHash(c: char)
    ensures '#' !in QuoteChar(c) && QuoteChar(c) != []
  {
    forall b: Byte
      ensures '#' !in Percent(b)
    {
      PercentHasNoHash(b);
    }
  }

  /** No encoded text contains the marker's first character. */
  lemma {:induction false} QuoteHasNoHash(s: string)
    ensures '#' !in Quote(s)
    ensures Quote(s) == [] <==> s == []
  {
    if s != [] {
      QuoteCharHasNoHash(s[0]);
      QuoteHasNoHash(s[1..]);
    }
  }

  // ---------------------------------------------------------------- writing and reading

  /** What the importer stores for one ticket. */
  function TicketSourceRef(source: string, ticketId: string): string {
    source + MARKER + Quote(ticketId)
  }

  predicate MarkerAt(s: string, i: nat) {
    i + |MARKER| <= |s| && s[i..i + |MARKER|] == MARKER
  }

  /** The last place before `limit` where the marker stands. */
  function LastMarker(s: string, limit: nat): (r: Option<nat>)
    ensures r.Some? ==> r.value < limit && MarkerAt(s, r.value) && forall i | r.value < i < limit :: !MarkerAt(s, i)
    ensures r.None? ==> forall i | 0 <= i < limit :: !MarkerAt(s, i)
  {
    if limit == 0 then None
    else if MarkerAt(s, limit - 1) then Some(limit - 1)
    else LastMarker(s, limit - 1)
  }

  /** The source part of a reference, when the last marker splits it into two non-empty parts. */
  function SourceOf(ref: string): Option<string> {
    var at := LastMarker(ref, |ref|);
    if at.None? || at.value == 0 || at.value + |MARKER| == |ref| then None else Some(ref[..at.value])
  }

  lemma MarkerStartsWithHash(s: string, i: nat)
    ensures MarkerAt(s, i) ==> s[i] == '#'
  {
    if MarkerAt(s, i) { assert s[i] == s[i..i + |MARKER|][0]; }
  }

  /** Behind the source, the only '#' is the one of the marker. */
  lemma OneHash(source: string, ticketId: string)
    ensures var ref := TicketSourceRef(source, ticketId);
            forall i | |source| <= i < |ref| :: ref[i] == '#' <==> i == |source|
  {
    var ref, q := TicketSourceRef(source, ticketId), Quote(ticketId);
    QuoteHasNoHash(ticketId);
    forall i | |source| <= i < |ref|
      ensures ref[i] == '#' <==> i == |source|
    {
      if i < |source| + |MARKER| {
        assert ref[i] == MARKER[i - |source|];
      } else {
        assert ref[i] == q[i - |source| - |MARKER|];
      }
    }
  }

  /** The pilot reads back the importer's source for every source text, even one that contains the marker. */
  lemma SourceReadsBack(source: string, ticketId: string)
    ensures SourceOf(TicketSourceRef(source, ticketId)) == if source == "" || ticketId == "" then None else Some(source)
  {
    var ref, q := TicketSourceRef(source, ticketId), Quote(ticketId);
    QuoteHasNoHash(ticketId);
    assert ref[|source|..|source| + |MARKER|] == MARKER;
    assert MarkerAt(ref, |source|);
    OneHash(source, ticketId);
    forall i | |source| < i < |ref|
      ensures !MarkerAt(ref, i)
    {
      assert ref[i] != '#';
      MarkerStartsWithHash(ref, i);
    }
    assert ref[..|source|] == source;
  }

  /** The whole reference can be taken apart again. */
  lemma TicketSourceRefInjective(s: string, t: string, source: string, ticketId: string)
    requires source != "" && ticketId != "" && s != "" && t != ""
    requires TicketSourceRef(s, t) == TicketSourceRef(source, ticketId)
    ensures s == source && t == ticketId
  {
    SourceReadsBack(s, t);
    SourceReadsBack(source, ticketId);
    var ref := TicketSourceRef(s, t);
    assert ref[|s| + |MARKER|..] == Quote(t) == Quote(ticketId);
    UnquoteInvertsQuote(t);
    UnquoteInvertsQuote(ticketId);
  }

  /** The one source that all evidence of a signal names, if there is one. */
  function CommonSource(refs: seq<string>): Option<string> {
    if refs != [] && SourceOf(refs[0]).Some? && forall i | 0 <= i < |refs| :: SourceOf(refs[i]) == SourceOf(refs[0])
    then SourceOf(refs[0]) else None
  }

  method SourceRefFromEvidence(refs: seq<string>) returns (r: Option<string>)
    ensures r == CommonSource(refs)
  {
    if refs == [] {
      return None;
    }
    var sources: seq<string> := [];
    for k := 0 to |refs|
      invariant |sources| == k
      invariant forall i | 0 <= i < k :: SourceOf(refs[i]) == Some(sources[i])
    {
      var source := SourceOf(refs[k]);
      if source.None? {
        return None;
      }
      sources := sources + [source.value];
    }
    var distinct := set s | s in sources;
    assert forall i | 0 <= i < |refs| :: sources[i] in distinct;
    if |distinct| != 1 {
      assert distinct != {sources[0]};
      return None;
    }
    OneElement(distinct, sources[0]);
    return Some(sources[0]);
  }

  lemma OneElement<T>(s: set<T>, x: T)
    requires |s| == 1 && x in s
    ensures s == {x}
  {
    assert |s - {x}| == 0;
  }

  /** The stored-procedure filter: some evidence starts with the source and the marker. */
  ghost predicate PassesFilter(refs: seq<string>, source: string) {
    exists i :: 0 <= i < |refs| && source + MARKER <= refs[i]
  }

  /** The reference was written for some ticket of the source. */
  ghost predicate IsTicketRef(ref: string, source: string) {
    exists t: string :: t != "" && ref == TicketSourceRef(source, t)
  }

  /** What an import under `source` stored for its tickets. */
  ghost predicate WrittenFor(refs: seq<string>, source: string) {
    refs != [] && forall i | 0 <= i < |refs| :: IsTicketRef(refs[i], source)
  }

  /** Whatever the exact check accepts, the filter has let through. */
  lemma FilterNeverMisses(refs: seq<string>, source: string)
    requires CommonSource(refs) == Some(source)
    ensures PassesFilter(refs, source)
  {
    var at := LastMarker(refs[0], |refs[0]|);
    assert refs[0][..at.value] == source;
    assert refs[0][..at.value + |MARKER|] == source + MARKER;
    assert source + MARKER <= refs[0];
  }

  /** Filter and exact check together find exactly the imports made under a source. */
  lemma ReportFindsExactlyItsImports(refs: seq<string>, written: string, asked: string)
    requires written != "" && WrittenFor(refs, written)
    ensures PassesFilter(refs, asked) && CommonSource(refs) == Some(asked) <==> asked == written
  {
    forall i | 0 <= i < |refs|
      ensures SourceOf(refs[i]) == Some(written)
    {
      assert IsTicketRef(refs[i], written);
      var t :| t != "" && refs[i] == TicketSourceRef(written, t);
      SourceReadsBack(written, t);
    }
    if asked == written { FilterNeverMisses(refs, asked); }
  }

  /**
   The filter alone lets a foreign import through exactly when its source begins with the asked one and
   the marker.
   */
  lemma FilterFalseMatches(refs: seq<string>, written: string, asked: string)
    requires written != "" && WrittenFor(refs, written) && asked != written
    ensures PassesFilter(refs, asked) <==> asked + MARKER <= written
  {
    var prefix := asked + MARKER;
    forall i | 0 <= i < |refs|
      ensures prefix <= refs[i] <==> prefix <= written
    {
      assert IsTicketRef(refs[i], written);
      var t :| t != "" && refs[i] == TicketSourceRef(written, t);
      PrefixOfRef(asked, written, t);
    }
    if prefix <= written { assert prefix <= refs[0]; }
  }

  lemma PrefixOfRef(asked: string, written: string, ticketId: string)
    requires asked != written
    ensures asked + MARKER <= TicketSourceRef(written, ticketId) <==> asked + MARKER <= written
  {
    var ref, prefix := TicketSourceRef(written, ticketId), asked + MARKER;
    OneHash(written, ticketId);
    assert prefix[|asked|] == '#';
    assert written == ref[..|written|];
    if prefix <= ref {
      assert ref[|asked|] == '#' && asked == ref[..|asked|];
      assert |asked| < |written|;
      assert forall i | |asked| < i < |prefix| :: prefix[i] == MARKER[i - |asked|] != '#';
      assert ref[|written|] == '#';
      assert |prefix| <= |written|;
    }
  }
}
