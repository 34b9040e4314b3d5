/**
 * The line codec used for reservation records: fields joined by commas, a
 * field that contains a comma or a double quote wrapped in quotes with its
 * inner quotes doubled, and a one-pass scanner that splits a line back into
 * fields by toggling an "inside quotes" flag at every quote character.
 *
 * The scanner drops every quote character it meets, including one half of a
 * doubled quote, so a field that contains a quote comes back without it. The
 * exact relation is `Split(Join(fs)) == StripAll(fs)` (lemma SplitJoin).
 */
module CsvCodec {
  import opened Base

  const QUOTE: char := '"'
  const COMMA: char := ','

  // ---------------------------------------------------------------------------
  // Optional fields

  /** An empty field decodes to an absent value. */
  function NullIfEmpty(s: string): (r: Option<string>)
    ensures r.None? <==> s == ""
    ensures r.Some? ==> r.value == s
  {
    if s == "" then None else Some(s)
  }

  /** An absent value encodes as an empty field. */
  function EmptyIfNull(o: Option<string>): (r: string)
    ensures o.Some? ==> r == o.value
    ensures o.None? ==> r == ""
  {
    match o
    case None => ""
    case Some(s) => s
  }

  /** Encoding then decoding an optional field gives it back exactly when it is not a present empty string. */
  lemma NullIfEmptyEmptyIfNull(o: Option<string>)
    ensures NullIfEmpty(EmptyIfNull(o)) == o <==> o != Some("")
  {
  }

  /** Decoding then encoding a field always gives the field back. */
  lemma EmptyIfNullNullIfEmpty(s: string)
    ensures EmptyIfNull(NullIfEmpty(s)) == s
  {
  }

  // ---------------------------------------------------------------------------
  // Quote removal: what the scanner does to the characters of a field

  /** The field with every double quote removed. */
  function StripQuotes(f: string): (r: string)
    ensures QUOTE !in r
    ensures |r| <= |f|
  {
    if f == [] then []
    else (if f[0] == QUOTE then [] else [f[0]]) + StripQuotes(f[1..])
  }

  /** Removing quotes changes a field exactly when it contains a quote. */
  lemma {:induction false} StripQuotesIdentity(f: string)
    ensures StripQuotes(f) == f <==> QUOTE !in f
  {
    if f != [] {
      StripQuotesIdentity(f[1..]);
      if f[0] == QUOTE {
        assert |StripQuotes(f)| < |f|;
      }
    }
  }

  /** Quote removal applied to every field of a record. */
  function StripAll(fs: seq<string>): (r: seq<string>)
    ensures |r| == |fs|
    ensures forall i :: 0 <= i < |fs| ==> r[i] == StripQuotes(fs[i])
  {
    if fs == [] then [] else StripAll(fs[..|fs| - 1]) + [StripQuotes(fs[|fs| - 1])]
  }

  // ---------------------------------------------------------------------------
  // Encoding

  /** A field needs quoting when it holds the delimiter or a quote. */
  predicate NeedsQuote(f: string) {
    COMMA in f || QUOTE in f
  }

  /** The field with each quote doubled. */
  function Escape(f: string): (r: string)
    ensures |r| >= |f|
  {
    if f == [] then []
    else (if f[0] == QUOTE then [QUOTE, QUOTE] else [f[0]]) + Escape(f[1..])
  }

  /** One field as it appears on the line. */
  function EncodeField(f: string): string {
    if NeedsQuote(f) then [QUOTE] + Escape(f) + [QUOTE] else f
  }

  /** The line for a sequence of fields: encoded fields separated by commas. */
  function Join(fs: seq<string>): string {
    if fs == [] then ""
    else if |fs| == 1 then EncodeField(fs[0])
    else Join(fs[..|fs| - 1]) + [COMMA] + EncodeField(fs[|fs| - 1])
  }

  /** The line for one more field: the line so far and a comma, unless it was empty, then the field. */
  lemma JoinStep(fs: seq<string>, i: nat)
    requires i < |fs|
    ensures Join(fs[..i + 1]) == (if i == 0 then [] else Join(fs[..i]) + [COMMA]) + EncodeField(fs[i])
  {
    assert fs[..i + 1][..i] == fs[..i];
  }

  /** The builder loop of the encoder, proved to produce Join. */
  method JoinCsv(fields: seq<string>) returns (line: string)
    ensures line == Join(fields)
  {
    var sb := "";
    var i := 0;
    while i < |fields|
      invariant 0 <= i <= |fields|
      invariant sb == Join(fields[..i]) + (if 0 < i < |fields| then [COMMA] else [])
    {
      var f := fields[i];
      var needQuote := COMMA in f || QUOTE in f;
      ghost var before := sb;
      if needQuote {
        sb := sb + [QUOTE] + Escape(f) + [QUOTE];
        assert sb == before + EncodeField(f);
      } else {
        sb := sb + f;
      }
      JoinStep(fields, i);
      if i < |fields| - 1 {
        sb := sb + [COMMA];
      }
      i := i + 1;
    }
    assert fields[..i] == fields;
    line := sb;
  }

  // ---------------------------------------------------------------------------
  // Decoding

  /**
   * The scanner on the rest `s` of a line, in state `inQuotes`, with the field
   * read so far `cur` and the fields completed so far `parts`.
   */
  function Scan(s: string, inQuotes: bool, cur: string, parts: seq<string>): seq<string>
    decreases |s|
  {
    if s == [] then parts + [cur]
    else if s[0] == QUOTE then Scan(s[1..], !inQuotes, cur, parts)
    else if s[0] == COMMA && !inQuotes then Scan(s[1..], inQuotes, "", parts + [cur])
    else Scan(s[1..], inQuotes, cur + [s[0]], parts)
  }

  /** The scanner only adds fields, and never puts a quote into one. */
  lemma {:induction false} ScanNoQuotes(s: string, inQuotes: bool, cur: string, parts: seq<string>)
    requires QUOTE !in cur && forall k :: 0 <= k < |parts| ==> QUOTE !in parts[k]
    ensures |Scan(s, inQuotes, cur, parts)| > |parts|
    ensures forall k :: 0 <= k < |Scan(s, inQuotes, cur, parts)| ==> QUOTE !in Scan(s, inQuotes, cur, parts)[k]
    decreases |s|
  {
    if s == [] {
    } else if s[0] == QUOTE {
      ScanNoQuotes(s[1..], !inQuotes, cur, parts);
    } else if s[0] == COMMA && !inQuotes {
      ScanNoQuotes(s[1..], inQuotes, "", parts + [cur]);
    } else {
      ScanNoQuotes(s[1..], inQuotes, cur + [s[0]], parts);
    }
  }

  /** The fields of a line: never none. */
  function Split(line: string): (r: seq<string>)
    ensures |r| >= 1
  {
    ScanNoQuotes(line, false, "", []);
    Scan(line, false, "", [])
  }

  /** No field read from a line holds a quote. */
  lemma SplitNoQuotes(line: string)
    ensures forall k :: 0 <= k < |Split(line)| ==> QUOTE !in Split(line)[k]
  {
    ScanNoQuotes(line, false, "", []);
  }

  /** The character loop of the decoder, proved to produce Split. */
  method SplitCsv(line: string) returns (parts: seq<string>)
    ensures parts == Split(line)
  {
    var done: seq<string> := [];
    var inQuotes := false;
    var cur := "";
    var i := 0;
    while i < |line|
      invariant 0 <= i <= |line|
      invariant Scan(line[i..], inQuotes, cur, done) == Split(line)
    {
      var c := line[i];
      assert line[i..][1..] == line[i + 1..];
      if c == QUOTE {
        inQuotes := !inQuotes;
      } else if c == COMMA && !inQuotes {
        done := done + [cur];
        cur := "";
      } else {
        cur := cur + [c];
      }
      i := i + 1;
    }
    parts := done + [cur];
  }

  // ---------------------------------------------------------------------------
  // Round trip

  /** A field without comma or quote is read back character by character. */
  lemma {:induction false} ScanPlain(f: string, rest: string, cur: string, parts: seq<string>)
    requires QUOTE !in f && COMMA !in f
    ensures Scan(f + rest, false, cur, parts) == Scan(rest, false, cur + f, parts)
  {
    if f == [] {
      assert f + rest == rest && cur + f == cur;
    } else {
      assert (f + rest)[0] == f[0];
      assert (f + rest)[1..] == f[1..] + rest;
      ScanPlain(f[1..], rest, cur + [f[0]], parts);
      assert cur + [f[0]] + f[1..] == cur + f;
    }
  }

  /** Inside quotes, an escaped field is read back without its quotes and leaves the scanner inside quotes. */
  lemma {:induction false} ScanEscaped(f: string, rest: string, cur: string, parts: seq<string>)
    ensures Scan(Escape(f) + rest, true, cur, parts) == Scan(rest, true, cur + StripQuotes(f), parts)
  {
    if f == [] {
      assert Escape(f) + rest == rest && cur + StripQuotes(f) == cur;
    } else if f[0] == QUOTE {
      var tail := Escape(f[1..]) + rest;
      assert Escape(f) + rest == [QUOTE, QUOTE] + tail;
      assert ([QUOTE, QUOTE] + tail)[1..] == [QUOTE] + tail;
      assert ([QUOTE] + tail)[1..] == tail;
      ScanEscaped(f[1..], rest, cur, parts);
      assert StripQuotes(f) == StripQuotes(f[1..]);
    } else {
      var tail := Escape(f[1..]) + rest;
      assert Escape(f) + rest == [f[0]] + tail;
      assert ([f[0]] + tail)[1..] == tail;
      ScanEscaped(f[1..], rest, cur + [f[0]], parts);
      assert StripQuotes(f) == [f[0]] + StripQuotes(f[1..]);
      assert cur + [f[0]] + StripQuotes(f[1..]) == cur + StripQuotes(f);
    }
  }

  /** Any encoded field is read back as the field without its quotes, leaving the scanner outside quotes. */
  lemma ScanField(f: string, rest: string, cur: string, parts: seq<string>)
    ensures Scan(EncodeField(f) + rest, false, cur, parts) == Scan(rest, false, cur + StripQuotes(f), parts)
  {
    if NeedsQuote(f) {
      var enc := [QUOTE] + Escape(f) + [QUOTE];
      assert enc + rest == [QUOTE] + (Escape(f) + ([QUOTE] + rest));
      assert (enc + rest)[1..] == Escape(f) + ([QUOTE] + rest);
      ScanEscaped(f, [QUOTE] + rest, cur, parts);
      assert ([QUOTE] + rest)[1..] == rest;
    } else {
      ScanPlain(f, rest, cur, parts);
      StripQuotesIdentity(f);
    }
  }

  /** Outside quotes, a comma completes the field in progress. */
  lemma ScanComma(rest: string, cur: string, parts: seq<string>)
    ensures Scan([COMMA] + rest, false, cur, parts) == Scan(rest, false, "", parts + [cur])
  {
    assert ([COMMA] + rest)[1..] == rest;
  }

  /** Reading a joined prefix leaves the last field in progress and the earlier ones completed. */
  lemma {:induction false} ScanJoin(fs: seq<string>, rest: string, parts: seq<string>)
    requires |fs| >= 1
    ensures Scan(Join(fs) + rest, false, "", parts)
         == Scan(rest, false, StripQuotes(fs[|fs| - 1]), parts + StripAll(fs[..|fs| - 1]))
  {
    var n := |fs|;
    if n == 1 {
      ScanField(fs[0], rest, "", parts);
      assert "" + StripQuotes(fs[0]) == StripQuotes(fs[0]);
      assert parts + StripAll(fs[..0]) == parts;
    } else {
      var init := fs[..n - 1];
      var last := fs[n - 1];
      var tail := [COMMA] + (EncodeField(last) + rest);
      JoinStep(fs, n - 1);
      assert Join(fs) + rest == Join(init) + tail;
      ScanJoin(init, tail, parts);
      assert init[..n - 2] == fs[..n - 2];
      var prev := StripQuotes(fs[n - 2]);
      var before := parts + StripAll(fs[..n - 2]);
      assert StripAll(init) == StripAll(fs[..n - 2]) + [prev];
      assert before + [prev] == parts + StripAll(init);
      ScanComma(EncodeField(last) + rest, prev, before);
      ScanField(last, rest, "", before + [prev]);
      assert "" + StripQuotes(last) == StripQuotes(last);
    }
  }

  /** Scanning a whole joined line from the start completes every field. */
  lemma ScanJoinAll(fs: seq<string>)
    requires |fs| >= 1
    ensures Scan(Join(fs), false, "", []) == StripAll(fs[..|fs| - 1]) + [StripQuotes(fs[|fs| - 1])]
  {
    ScanJoin(fs, "", []);
    assert Join(fs) + "" == Join(fs);
    var empty: seq<string> := [];
    assert empty + StripAll(fs[..|fs| - 1]) == StripAll(fs[..|fs| - 1]);
  }

  lemma StripAllLast(fs: seq<string>)
    requires |fs| >= 1
    ensures StripAll(fs) == StripAll(fs[..|fs| - 1]) + [StripQuotes(fs[|fs| - 1])]
  {
  }

  /** Splitting a joined line gives back every field, in order, with its quotes removed. */
  lemma SplitJoin(fs: seq<string>)
    requires |fs| >= 1
    ensures Split(Join(fs)) == StripAll(fs)
  {
    ScanJoinAll(fs);
    StripAllLast(fs);
  }

  /** For quote-free fields (commas allowed) the codec round-trips exactly. */
  lemma SplitJoinQuoteFree(fs: seq<string>)
    requires |fs| >= 1
    requires forall k :: 0 <= k < |fs| ==> QUOTE !in fs[k]
    ensures Split(Join(fs)) == fs
  {
    SplitJoin(fs);
    forall k | 0 <= k < |fs| ensures StripQuotes(fs[k]) == fs[k] {
      StripQuotesIdentity(fs[k]);
    }
  }

  /** A field holding a quote never survives a write and a read. */
  lemma SplitJoinQuoteLost(f: string)
    requires QUOTE in f
    ensures Split(Join([f])) != [f]
  {
    SplitJoin([f]);
    StripQuotesIdentity(f);
  }

  lemma {:induction false} StripQuotesAppend(x: string, y: string)
    ensures StripQuotes(x + y) == StripQuotes(x) + StripQuotes(y)
  {
    if x == [] {
      assert x + y == y;
    } else {
      assert (x + y)[1..] == x[1..] + y;
      StripQuotesAppend(x[1..], y);
    }
  }

  lemma {:induction false} EscapeAppend(x: string, y: string)
    ensures Escape(x + y) == Escape(x) + Escape(y)
  {
    if x == [] {
      assert x + y == y;
    } else {
      assert (x + y)[1..] == x[1..] + y;
      EscapeAppend(x[1..], y);
    }
  }

  /** Doubling quotes leaves a quote-free field as it is. */
  lemma {:induction false} EscapeQuoteFree(x: string)
    requires QUOTE !in x
    ensures Escape(x) == x
  {
    if x != [] {
      EscapeQuoteFree(x[1..]);
    }
  }

  /** Quote removal on a field with one quote between quote-free parts drops just that quote. */
  lemma StripOneQuote(a: string, b: string)
    requires QUOTE !in a && QUOTE !in b
    ensures StripQuotes(a + [QUOTE] + b) == a + b
  {
    StripQuotesAppend(a + [QUOTE], b);
    StripQuotesAppend(a, [QUOTE]);
    StripQuotesIdentity(a);
    StripQuotesIdentity(b);
    assert StripQuotes([QUOTE]) == [];
    assert StripQuotes(a + [QUOTE]) == a;
  }

  /**
   * A field with one quote between quote-free parts, such as `O"Neil`, is
   * written as `"O""Neil"` and read back as `ONeil`.
   */
  lemma SplitJoinLosesQuotes(a: string, b: string)
    requires QUOTE !in a && QUOTE !in b
    ensures Join([a + [QUOTE] + b]) == [QUOTE] + a + [QUOTE, QUOTE] + b + [QUOTE]
    ensures Split(Join([a + [QUOTE] + b])) == [a + b]
  {
    JoinOneQuote(a, b);
    ReadOneQuote(a, b);
  }

  /** Quote doubling on a field with one quote between quote-free parts. */
  lemma EscapeOneQuote(a: string, b: string)
    requires QUOTE !in a && QUOTE !in b
    ensures Escape(a + [QUOTE] + b) == a + [QUOTE, QUOTE] + b
  {
    EscapeAppend(a + [QUOTE], b);
    EscapeAppend(a, [QUOTE]);
    EscapeQuoteFree(a);
    EscapeQuoteFree(b);
    assert Escape([QUOTE]) == [QUOTE, QUOTE];
  }

  lemma JoinOneQuote(a: string, b: string)
    requires QUOTE !in a && QUOTE !in b
    ensures Join([a + [QUOTE] + b]) == [QUOTE] + a + [QUOTE, QUOTE] + b + [QUOTE]
  {
    var f := a + [QUOTE] + b;
    EscapeOneQuote(a, b);
    assert f[|a|] == QUOTE;
    assert Join([f]) == [QUOTE] + Escape(f) + [QUOTE];
    assert [QUOTE] + (a + [QUOTE, QUOTE] + b) == [QUOTE] + (a + [QUOTE, QUOTE]) + b;
    assert [QUOTE] + (a + [QUOTE, QUOTE]) == [QUOTE] + a + [QUOTE, QUOTE];
  }

  lemma ReadOneQuote(a: string, b: string)
    requires QUOTE !in a && QUOTE !in b
    ensures Split(Join([a + [QUOTE] + b])) == [a + b]
  {
    var f := a + [QUOTE] + b;
    SplitJoin([f]);
    StripOneQuote(a, b);
    assert StripAll([f]) == [StripQuotes(f)];
  }

  /** An empty list of fields is read back as one empty field. */
  lemma SplitJoinEmpty()
    ensures Split(Join([])) == [""]
  {
  }
}
