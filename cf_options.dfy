/** Column-family option arithmetic and the legacy `compression_opts`
    parser of options/cf_options.cc. Integer widths are written out as
    subset types; the text parsers the file calls (`ParseInt`,
    `ParseUint64`, `ParseBoolean`) and the option-table parser behind
    `GetMutableOptionsFromStrings` are passed in as functions. */
module CFOptions {
  import opened Optional
  import opened CStrings
  import opened StatusCodes
  import opened CppStatus

  const UINT64_MAX: int := 0xFFFF_FFFF_FFFF_FFFF
  /** `size_t` is 64 bits wide here, so `SIZE_MAX` and `ULLONG_MAX` are
      `UINT64_MAX`. */
  const SIZE_MAX: int := UINT64_MAX
  const ULLONG_MAX: int := UINT64_MAX

  type uint64 = x: int | 0 <= x <= UINT64_MAX
  type uint32 = x: int | 0 <= x < 0x1_0000_0000
  type int32 = x: int | -0x8000_0000 <= x < 0x8000_0000

  /** Converting an `int` to `uint32_t` is reduction modulo 2^32. */
  function ToUint32(x: int32): (r: uint32)
    ensures 0 <= x ==> r == x
    ensures x < 0 ==> r == x + 0x1_0000_0000
  {
    x % 0x1_0000_0000
  }

  // ---------------------------------------------------------------------
  // The legacy colon-separated `compression_opts` text
  // ---------------------------------------------------------------------

  /** The ':'-separated fields of a text: one more field than there are
      colons, possibly empty. */
  function Split(s: string): (r: seq<string>)
    ensures |r| >= 1
    ensures forall i :: 0 <= i < |r| ==> ':' !in r[i]
    decreases |s|
  {
    if |s| == 0 then [""]
    else
      var t := Split(s[1..]);
      if s[0] == ':' then [""] + t
      else
        assert forall i :: 1 <= i < |t| ==> ':' !in t[i];
        [[s[0]] + t[0]] + t[1..]
  }

  /** The fields joined back with ':'. */
  function Join(p: seq<string>): (s: string)
    requires |p| >= 1
    decreases |p|
  {
    if |p| == 1 then p[0] else p[0] + ":" + Join(p[1..])
  }

  /** Splitting and joining are inverse to each other. */
  lemma {:induction false} SplitJoinRoundTrip(s: string, p: seq<string>)
    requires |p| >= 1 && forall i :: 0 <= i < |p| ==> ':' !in p[i]
    ensures Join(Split(s)) == s
    ensures Split(Join(p)) == p
  {
    SplitThenJoin(s);
    JoinThenSplit(p);
  }

  lemma {:induction false} SplitThenJoin(s: string)
    ensures Join(Split(s)) == s
    decreases |s|
  {
    if |s| > 0 {
      var t := Split(s[1..]);
      SplitThenJoin(s[1..]);
      if s[0] == ':' {
        assert Split(s)[1..] == t;
      } else {
        var r := Split(s);
        assert r[1..] == t[1..];
        if |t| > 1 {
          assert Join(t) == t[0] + ":" + Join(t[1..]);
        }
      }
      assert s == [s[0]] + s[1..];
    }
  }

  lemma {:induction false} JoinThenSplit(p: seq<string>)
    requires |p| >= 1 && forall i :: 0 <= i < |p| ==> ':' !in p[i]
    ensures Split(Join(p)) == p
    decreases |p|, |p[0]|
  {
    if |p| == 1 {
      NoColonSplit(p[0]);
    } else if |p[0]| == 0 {
      var rest := p[1..];
      JoinThenSplit(rest);
      var j := Join(p);
      assert j == [':'] + Join(rest);
      SplitFirst(j);
      assert j[1..] == Join(rest);
      assert p == [""] + rest;
    } else {
      var rest := p[1..];
      var q := [p[0][1..]] + rest;
      assert q[1..] == rest;
      JoinThenSplit(q);
      var j := Join(p);
      assert j == [p[0][0]] + Join(q) by {
        assert Join(q) == p[0][1..] + ":" + Join(rest);
        assert p[0] == [p[0][0]] + p[0][1..];
      }
      SplitFirst(j);
      assert j[1..] == Join(q);
      assert [p[0][0]] + q[0] == p[0];
      assert p == [p[0]] + rest;
    }
  }

  /** One step of `Split`: a leading ':' closes an empty first field, any
      other character opens the first field. */
  lemma SplitFirst(s: string)
    requires |s| > 0
    ensures s[0] == ':' ==> Split(s) == [""] + Split(s[1..])
    ensures s[0] != ':' ==> Split(s) == [[s[0]] + Split(s[1..])[0]] + Split(s[1..])[1..]
  {
  }

  lemma {:induction false} NoColonSplit(s: string)
    requires ':' !in s
    ensures Split(s) == [s]
    decreases |s|
  {
    if |s| > 0 {
      NoColonSplit(s[1..]);
      assert [s[0]] + s[1..] == s;
    }
  }

  /** The position of the first ':', or the length when there is none. */
  function ColonIndex(s: string): (i: nat)
    ensures i <= |s| && ':' !in s[..i]
    ensures i < |s| ==> s[i] == ':'
    decreases |s|
  {
    if |s| == 0 || s[0] == ':' then 0
    else
      var j := ColonIndex(s[1..]);
      assert s[..j + 1] == [s[0]] + s[1..][..j];
      j + 1
  }

  /** An `istringstream` read by `std::getline(stream, field, ':')`: what
      is left to read, and whether a read has run into the end. */
  datatype FieldStream = FieldStream(rest: string, eof: bool)

  /** `std::getline` with delimiter ':': fails when nothing is left to read;
      otherwise returns the text up to the next ':' (consumed, not stored),
      or up to the end, which sets `eof`. */
  function GetLine(st: FieldStream): (r: Option<(string, FieldStream)>)
    ensures r.None? <==> st.rest == ""
  {
    if st.rest == "" then Option.None
    else
      var i := ColonIndex(st.rest);
      if i < |st.rest| then Some((st.rest[..i], FieldStream(st.rest[i + 1..], false)))
      else Some((st.rest, FieldStream("", true)))
  }

  /** The stream has delivered the first `k` of the fields `p`. */
  predicate Tracks(st: FieldStream, p: seq<string>, k: nat) {
    (!st.eof ==> k < |p| && Split(st.rest) == p[k..]) &&
    (st.eof ==> k == |p| && st.rest == "")
  }

  /** The number of fields `getline` delivers before it fails or reaches
      the end: all of them, unless the last is empty (a trailing ':' or an
      empty text), which no read returns. */
  function Readable(p: seq<string>): (n: nat)
    requires |p| >= 1
    ensures n <= |p|
  {
    if p[|p| - 1] != "" then |p| else |p| - 1
  }

  lemma {:induction false} SplitAtColon(s: string)
    ensures var i := ColonIndex(s);
      Split(s)[0] == s[..i] &&
      (i < |s| ==> Split(s)[1..] == Split(s[i + 1..])) &&
      (i == |s| ==> |Split(s)| == 1)
    decreases |s|
  {
    if |s| > 0 && s[0] != ':' {
      SplitAtColon(s[1..]);
      var j := ColonIndex(s[1..]);
      if j < |s[1..]| {
        assert s[1..][j + 1..] == s[j + 2..];
      }
    }
  }

  /** Each read returns the next field, and runs into the end exactly when
      that field is the last one. */
  lemma {:induction false} GetLineStep(st: FieldStream, p: seq<string>, k: nat)
    requires Tracks(st, p, k) && |p| >= 1
    ensures GetLine(st).Some? <==> k < Readable(p)
    ensures GetLine(st).Some? ==>
      GetLine(st).value.0 == p[k] && Tracks(GetLine(st).value.1, p, k + 1) &&
      (GetLine(st).value.1.eof <==> k + 1 == |p|)
  {
    if !st.eof {
      var s := st.rest;
      if s == "" {
        assert Split(s) == [""];
        assert p[k..] == [""];
        assert k == |p| - 1 && p[k] == "";
      } else {
        SplitAtColon(s);
        var i := ColonIndex(s);
        assert p[k] == Split(s)[0];
        if i < |s| {
          assert p[k + 1..] == Split(s)[1..];
        } else {
          assert s[..i] == s;
          assert |p[k..]| == 1;
        }
      }
    }
  }

  /** One `std::getline(field_stream, field, ':')` call on a stream that
      has delivered `k` of the fields `p`: it succeeds exactly when field `k`
      can be read, returns it, and reports whether the text ran out. */
  method ReadField(st: FieldStream, ghost p: seq<string>, ghost k: nat)
    returns (ok: bool, field: string, st': FieldStream)
    requires Tracks(st, p, k) && |p| >= 1
    ensures ok <==> k < Readable(p)
    ensures ok ==> field == p[k] && Tracks(st', p, k + 1) && (st'.eof <==> k + 1 == |p|)
  {
    GetLineStep(st, p, k);
    var r := GetLine(st);
    if r.None? {
      return false, "", st;
    }
    return true, r.value.0, r.value.1;
  }

  /** The `CompressionOptions` fields the legacy text sets. */
  datatype CompressionOpts = CompressionOpts(
    windowBits: int32,
    level: int32,
    strategy: int32,
    maxDictBytes: uint32,
    zstdMaxTrainBytes: uint32,
    parallelThreads: uint32,
    enabled: bool,
    maxDictBufferBytes: uint64,
    useZstdDictTrainer: bool)

  /** The text is accepted when it has three to nine fields and the last one
      is not empty. */
  predicate Accepted(value: string) {
    var p := Split(value);
    3 <= |p| <= 9 && p[|p| - 1] != ""
  }

  /** The options once the first `n` fields of `p` are stored, stated field
      by field. Fields 0-4 are window_bits, level, strategy, max_dict_bytes
      and zstd_max_train_bytes; a sixth field is `enabled` when it is the
      last field of the text and parallel_threads otherwise; then come
      `enabled`, max_dict_buffer_bytes and use_zstd_dict_trainer. */
  function Stored(
    o: CompressionOpts, p: seq<string>, n: nat,
    parseInt: string -> int32, parseBoolean: string -> bool, parseUint64: string -> uint64): (r: CompressionOpts)
    requires n <= |p| && n <= 9
    ensures n == 0 ==> r == o
  {
    CompressionOpts(
      windowBits := if n > 0 then parseInt(p[0]) else o.windowBits,
      level := if n > 1 then parseInt(p[1]) else o.level,
      strategy := if n > 2 then parseInt(p[2]) else o.strategy,
      maxDictBytes := if n > 3 then ToUint32(parseInt(p[3])) else o.maxDictBytes,
      zstdMaxTrainBytes := if n > 4 then ToUint32(parseInt(p[4])) else o.zstdMaxTrainBytes,
      parallelThreads := if n > 5 && |p| > 6 then ToUint32(parseInt(p[5])) else o.parallelThreads,
      enabled :=
        if n > 6 then parseBoolean(p[6])
        else if n > 5 && |p| == 6 then parseBoolean(p[5])
        else o.enabled,
      maxDictBufferBytes := if n > 7 then parseUint64(p[7]) else o.maxDictBufferBytes,
      useZstdDictTrainer := if n > 8 then parseBoolean(p[8]) else o.useZstdDictTrainer)
  }

  /** The options after parsing: every field the parser reads is stored,
      and it reads every field `getline` delivers, up to nine. */
  function Expected(
    o: CompressionOpts, p: seq<string>,
    parseInt: string -> int32, parseBoolean: string -> bool, parseUint64: string -> uint64): (r: CompressionOpts)
    requires |p| >= 1
    ensures Readable(p) == 0 ==> r == o
  {
    var n := if Readable(p) < 9 then Readable(p) else 9;
    Stored(o, p, n, parseInt, parseBoolean, parseUint64)
  }

  /** The text every parse failure starts with, as bytes. */
  const UnableToParse: seq<byte> := StringToBytes("unable to parse the specified CF option ")

  /** `Status::InvalidArgument("unable to parse the specified CF option " + name)`. */
  function ParseFailure(name: seq<byte>): (s: StatusValue)
    ensures s.IsInvalidArgument() && s.subcode == SubCode.None
    ensures s.state == Ptr(MessageState(UnableToParse + name, []))
  {
    FromMessage(InvalidArgument, UnableToParse + name, [])
  }

  /** `CompressionOptions`, which the parser updates field by field. */
  class CompressionOptions {
    var windowBits: int32
    var level: int32
    var strategy: int32
    var maxDictBytes: uint32
    var zstdMaxTrainBytes: uint32
    var parallelThreads: uint32
    var enabled: bool
    var maxDictBufferBytes: uint64
    var useZstdDictTrainer: bool

    function Value(): CompressionOpts
      reads this
    {
      CompressionOpts(windowBits, level, strategy, maxDictBytes, zstdMaxTrainBytes,
                      parallelThreads, enabled, maxDictBufferBytes, useZstdDictTrainer)
    }

    constructor FromValue(v: CompressionOpts)
      ensures Value() == v
    {
      windowBits, level, strategy := v.windowBits, v.level, v.strategy;
      maxDictBytes, zstdMaxTrainBytes, parallelThreads := v.maxDictBytes, v.zstdMaxTrainBytes, v.parallelThreads;
      enabled, maxDictBufferBytes, useZstdDictTrainer := v.enabled, v.maxDictBufferBytes, v.useZstdDictTrainer;
    }
  }

  /** Stores field `k` of the text, just read as `field`, into the option
      it sets; `atEnd` says whether the read ran into the end of the text,
      which decides what the sixth field means. */
  method StoreField(
    opts: CompressionOptions, ghost o: CompressionOpts, ghost p: seq<string>, k: nat, field: string, atEnd: bool,
    parseInt: string -> int32, parseBoolean: string -> bool, parseUint64: string -> uint64)
    requires k < |p| && k < 9 && field == p[k] && (atEnd <==> k + 1 == |p|)
    requires opts.Value() == Stored(o, p, k, parseInt, parseBoolean, parseUint64)
    modifies opts
    ensures opts.Value() == Stored(o, p, k + 1, parseInt, parseBoolean, parseUint64)
  {
    if k == 0 {
      opts.windowBits := parseInt(field);
    } else if k == 1 {
      opts.level := parseInt(field);
    } else if k == 2 {
      opts.strategy := parseInt(field);
    } else if k == 3 {
      opts.maxDictBytes := ToUint32(parseInt(field));
    } else if k == 4 {
      opts.zstdMaxTrainBytes := ToUint32(parseInt(field));
    } else if k == 5 {
      if !atEnd {
        opts.parallelThreads := ToUint32(parseInt(field));
      } else {
        opts.enabled := parseBoolean(field);
      }
    } else if k == 6 {
      opts.enabled := parseBoolean(field);
    } else if k == 7 {
      opts.maxDictBufferBytes := parseUint64(field);
    } else {
      opts.useZstdDictTrainer := parseBoolean(field);
    }
  }

  /** Parsing has read and stored the first `k` fields of `p`, starting
      from the options `o`, and `st` holds the text still to read. */
  ghost predicate Progress(
    st: FieldStream, v: CompressionOpts, o: CompressionOpts, p: seq<string>, k: nat,
    parseInt: string -> int32, parseBoolean: string -> bool, parseUint64: string -> uint64)
  {
    |p| >= 1 && k <= 9 && k <= Readable(p) && Tracks(st, p, k) &&
    v == Stored(o, p, k, parseInt, parseBoolean, parseUint64)
  }

  /** One `getline` followed by the assignment it feeds: on success field
      `k` is stored and `k'` moves past it; on failure nothing changes. */
  method ReadAndStore(
    st: FieldStream, opts: CompressionOptions, ghost o: CompressionOpts, ghost p: seq<string>, k: nat,
    parseInt: string -> int32, parseBoolean: string -> bool, parseUint64: string -> uint64)
    returns (ok: bool, st': FieldStream, k': nat)
    requires k < 9 && Progress(st, opts.Value(), o, p, k, parseInt, parseBoolean, parseUint64)
    modifies opts
    ensures ok <==> k < Readable(p)
    ensures k' == if ok then k + 1 else k
    ensures Progress(st', opts.Value(), o, p, k', parseInt, parseBoolean, parseUint64)
    ensures ok ==> (st'.eof <==> k' == |p|)
  {
    var field;
    ok, field, st' := ReadField(st, p, k);
    if ok {
      StoreField(opts, o, p, k, field, st'.eof, parseInt, parseBoolean, parseUint64);
      k' := k + 1;
    } else {
      st', k' := st, k;
    }
  }

  /** A read that fails ends the parse with the fields before it stored,
      and the text is not accepted. */
  lemma FailedRead(
    value: string, st: FieldStream, v: CompressionOpts, o: CompressionOpts, p: seq<string>, k: nat,
    parseInt: string -> int32, parseBoolean: string -> bool, parseUint64: string -> uint64)
    requires p == Split(value) && k < 9 && k == Readable(p) && (k >= 3 ==> !st.eof)
    requires Progress(st, v, o, p, k, parseInt, parseBoolean, parseUint64)
    ensures !Accepted(value)
    ensures v == Expected(o, p, parseInt, parseBoolean, parseUint64)
  {
  }

  /** Text left after nine fields is refused, with all nine stored. */
  lemma TrailingText(
    value: string, st: FieldStream, v: CompressionOpts, o: CompressionOpts, p: seq<string>, k: nat,
    parseInt: string -> int32, parseBoolean: string -> bool, parseUint64: string -> uint64)
    requires p == Split(value) && k == 9 && !st.eof
    requires Progress(st, v, o, p, k, parseInt, parseBoolean, parseUint64)
    ensures !Accepted(value)
    ensures v == Expected(o, p, parseInt, parseBoolean, parseUint64)
  {
  }

  /** Running into the end after three to nine fields accepts the text. */
  lemma ReachedEnd(
    value: string, st: FieldStream, v: CompressionOpts, o: CompressionOpts, p: seq<string>, k: nat,
    parseInt: string -> int32, parseBoolean: string -> bool, parseUint64: string -> uint64)
    requires p == Split(value) && 3 <= k && st.eof
    requires Progress(st, v, o, p, k, parseInt, parseBoolean, parseUint64)
    ensures Accepted(value)
    ensures v == Expected(o, p, parseInt, parseBoolean, parseUint64)
  {
  }

  /** What parsing `value` into options that held `o` ends with: the
      status, and the options `v` it leaves. */
  ghost predicate Outcome(
    value: string, name: seq<byte>, s: StatusValue, v: CompressionOpts, o: CompressionOpts,
    parseInt: string -> int32, parseBoolean: string -> bool, parseUint64: string -> uint64)
  {
    (s.IsOk() <==> Accepted(value)) &&
    (s.IsOk() ==> s == OK()) &&
    (!s.IsOk() ==> s == ParseFailure(name)) &&
    v == Expected(o, Split(value), parseInt, parseBoolean, parseUint64)
  }

  /** `ParseCompressionOptions`: reads the fields one `getline` at a time,
      storing each as it is read, and returns InvalidArgument as soon as a
      read fails or when text is left after the ninth field. The first three
      fields are required; each later one is read only while the text has
      not run out. Fields stored before a failure stay stored. */
  method ParseCompressionOptions(
    value: string, name: seq<byte>, opts: CompressionOptions,
    parseInt: string -> int32, parseBoolean: string -> bool, parseUint64: string -> uint64)
    returns (s: StatusValue)
    modifies opts
    ensures s.IsOk() <==> Accepted(value)
    ensures s.IsOk() ==> s == OK()
    ensures !s.IsOk() ==> s == ParseFailure(name)
    ensures opts.Value() == Expected(old(opts.Value()), Split(value), parseInt, parseBoolean, parseUint64)
  {
    ghost var p := Split(value);
    ghost var o := opts.Value();
    var st := FieldStream(value, false);
    var ok: bool;
    var k := 0; // the index of the next field

    // window_bits, level and strategy are required
    ok, st, k := ReadAndStore(st, opts, o, p, k, parseInt, parseBoolean, parseUint64);
    if !ok {
      FailedRead(value, st, opts.Value(), o, p, k, parseInt, parseBoolean, parseUint64);
      return ParseFailure(name);
    }
    ok, st, k := ReadAndStore(st, opts, o, p, k, parseInt, parseBoolean, parseUint64);
    if !ok {
      FailedRead(value, st, opts.Value(), o, p, k, parseInt, parseBoolean, parseUint64);
      return ParseFailure(name);
    }
    ok, st, k := ReadAndStore(st, opts, o, p, k, parseInt, parseBoolean, parseUint64);
    if !ok {
      FailedRead(value, st, opts.Value(), o, p, k, parseInt, parseBoolean, parseUint64);
      return ParseFailure(name);
    }
    s := ParseOptionalFields(value, name, st, k, opts, o, parseInt, parseBoolean, parseUint64);
  }

  /** The rest of `ParseCompressionOptions` once the three required fields
      are stored: max_dict_bytes, zstd_max_train_bytes and the sixth field
      (parallel_threads, or enabled when it is the last) are each read only
      if the text has not run out. */
  method ParseOptionalFields(
    value: string, name: seq<byte>, st: FieldStream, k: nat, opts: CompressionOptions, ghost o: CompressionOpts,
    parseInt: string -> int32, parseBoolean: string -> bool, parseUint64: string -> uint64)
    returns (s: StatusValue)
    requires k == 3 && Progress(st, opts.Value(), o, Split(value), k, parseInt, parseBoolean, parseUint64)
    modifies opts
    ensures Outcome(value, name, s, opts.Value(), o, parseInt, parseBoolean, parseUint64)
  {
    ghost var p := Split(value);
    var st, k := st, k;
    var ok: bool;
    if !st.eof {
      ok, st, k := ReadAndStore(st, opts, o, p, k, parseInt, parseBoolean, parseUint64);
      if !ok {
        FailedRead(value, st, opts.Value(), o, p, k, parseInt, parseBoolean, parseUint64);
        return ParseFailure(name);
      }
    }
    if !st.eof {
      ok, st, k := ReadAndStore(st, opts, o, p, k, parseInt, parseBoolean, parseUint64);
      if !ok {
        FailedRead(value, st, opts.Value(), o, p, k, parseInt, parseBoolean, parseUint64);
        return ParseFailure(name);
      }
    }
    if !st.eof {
      ok, st, k := ReadAndStore(st, opts, o, p, k, parseInt, parseBoolean, parseUint64);
      if !ok {
        FailedRead(value, st, opts.Value(), o, p, k, parseInt, parseBoolean, parseUint64);
        return ParseFailure(name);
      }
    }
    s := ParseLaterFields(value, name, st, k, opts, o, parseInt, parseBoolean, parseUint64);
  }

  /** The end of `ParseCompressionOptions`: enabled, max_dict_buffer_bytes
      and use_zstd_dict_trainer are each read only if the text has not run
      out; text left after them is an error. */
  method ParseLaterFields(
    value: string, name: seq<byte>, st: FieldStream, k: nat, opts: CompressionOptions, ghost o: CompressionOpts,
    parseInt: string -> int32, parseBoolean: string -> bool, parseUint64: string -> uint64)
    returns (s: StatusValue)
    requires 3 <= k <= 6 && (k < 6 ==> st.eof)
    requires Progress(st, opts.Value(), o, Split(value), k, parseInt, parseBoolean, parseUint64)
    modifies opts
    ensures Outcome(value, name, s, opts.Value(), o, parseInt, parseBoolean, parseUint64)
  {
    ghost var p := Split(value);
    var st, k := st, k;
    var ok: bool;
    if !st.eof {
      ok, st, k := ReadAndStore(st, opts, o, p, k, parseInt, parseBoolean, parseUint64);
      if !ok {
        FailedRead(value, st, opts.Value(), o, p, k, parseInt, parseBoolean, parseUint64);
        return ParseFailure(name);
      }
    }
    if !st.eof {
      ok, st, k := ReadAndStore(st, opts, o, p, k, parseInt, parseBoolean, parseUint64);
      if !ok {
        FailedRead(value, st, opts.Value(), o, p, k, parseInt, parseBoolean, parseUint64);
        return ParseFailure(name);
      }
    }
    if !st.eof {
      ok, st, k := ReadAndStore(st, opts, o, p, k, parseInt, parseBoolean, parseUint64);
      if !ok {
        FailedRead(value, st, opts.Value(), o, p, k, parseInt, parseBoolean, parseUint64);
        return ParseFailure(name);
      }
    }

    // text left after the last known field
    if !st.eof {
      TrailingText(value, st, opts.Value(), o, p, k, parseInt, parseBoolean, parseUint64);
      return ParseFailure(name);
    }
    ReachedEnd(value, st, opts.Value(), o, p, k, parseInt, parseBoolean, parseUint64);
    return OK();
  }

  // ---------------------------------------------------------------------
  // Option arithmetic
  // ---------------------------------------------------------------------

  /** `MultiplyCheckOverflow` with an integer multiplier: zero for a zero
      operand or a multiplier that is not positive; the first operand
      unchanged when the product does not fit in 64 bits; the product
      otherwise. The test divides instead of multiplying. */
  function MultiplyCheckOverflow(op1: uint64, op2: int): (r: uint64)
    ensures op1 == 0 || op2 <= 0 ==> r == 0
    ensures op1 > 0 && op2 > 0 && op1 * op2 > UINT64_MAX ==> r == op1
    ensures op1 > 0 && op2 > 0 && op1 * op2 <= UINT64_MAX ==> r == op1 * op2
  {
    if op1 == 0 || op2 <= 0 then 0
    else if UINT64_MAX / op1 < op2 then
      DivisionDetectsOverflow(op1, op2);
      op1
    else
      DivisionDetectsOverflow(op1, op2);
      op1 * op2
  }

  /** For positive operands, `UINT64_MAX / a < b` holds exactly when the
      product passes `UINT64_MAX`. */
  lemma DivisionDetectsOverflow(a: int, b: int)
    requires a > 0 && b > 0
    ensures UINT64_MAX / a < b <==> a * b > UINT64_MAX
  {
    var q := UINT64_MAX / a;
    assert a * q <= UINT64_MAX < a * (q + 1);
    if q < b {
      assert a * b >= a * (q + 1) by { MultiplyMonotone(a, q + 1, b); }
    } else {
      assert a * b <= a * q by { MultiplyMonotone(a, b, q); }
    }
  }

  lemma MultiplyMonotone(a: int, x: int, y: int)
    requires a >= 0 && x <= y
    ensures a * x <= a * y
  {
  }

  /** `MaxFileSizeForL0MetaPin`: one and a half times half the write buffer
      size, saturated at `SIZE_MAX`. */
  function MaxFileSizeForL0MetaPin(writeBufferSize: uint64): (r: uint64)
    ensures writeBufferSize / 2 * 3 <= SIZE_MAX ==> r == writeBufferSize / 2 * 3
    ensures writeBufferSize / 2 * 3 > SIZE_MAX ==> r == SIZE_MAX
  {
    if SIZE_MAX / 3 < writeBufferSize / 2 then SIZE_MAX
    else writeBufferSize / 2 * 3
  }

  /** `CompactionStyle` of rocksdb-rs. */
  datatype CompactionStyle = Level | Universal | FIFO | NoCompaction

  /** The size `RefreshDerivedOptions` gives to level `i`: unlimited for
      level 0 under universal compaction, the base size for levels 0 and 1,
      and each deeper level the one above times the multiplier. */
  function FileSizeAt(i: nat, base: uint64, multiplier: int32, style: CompactionStyle): (r: uint64)
    ensures i == 0 && style == Universal ==> r == ULLONG_MAX
    ensures i >= 1 && multiplier >= 1 ==> base <= r
    ensures i > 1 && multiplier <= 0 ==> r == 0
    ensures i == 1 || (i == 0 && style != Universal) ==> r == base
  {
    if i == 0 && style == Universal then ULLONG_MAX
    else if i > 1 then MultiplyCheckOverflow(FileSizeAt(i - 1, base, multiplier, style), multiplier)
    else base
  }

  /** Below the levels where the size first overflows, level `i` gets
      `base * multiplier^(i-1)`. */
  lemma {:induction false} FileSizeIsGeometric(i: nat, base: uint64, multiplier: int32, style: CompactionStyle)
    requires i >= 1 && base > 0 && multiplier >= 1
    requires base * Pow(multiplier, i - 1) <= UINT64_MAX
    ensures FileSizeAt(i, base, multiplier, style) == base * Pow(multiplier, i - 1)
  {
    if i > 1 {
      var q := Pow(multiplier, i - 2);
      var q' := Pow(multiplier, i - 1);
      assert q' == multiplier * q;
      PowPositive(multiplier, i - 2);
      var a := base * q;
      GeometricStep(base, q, multiplier);
      assert a <= base * q';
      FileSizeIsGeometric(i - 1, base, multiplier, style);
      assert FileSizeAt(i - 1, base, multiplier, style) == a;
      assert a * multiplier == base * q';
      assert FileSizeAt(i, base, multiplier, style) == MultiplyCheckOverflow(a, multiplier);
    }
  }

  /** One more factor of the multiplier: the product grows, and stays
      positive. */
  lemma GeometricStep(base: int, q: int, m: int)
    requires base > 0 && q >= 1 && m >= 1
    ensures base * q >= 1
    ensures base * q <= base * (m * q)
    ensures (base * q) * m == base * (m * q)
  {
    MultiplyMonotone(base, 1, q);
    MultiplyMonotone(base, q, m * q);
  }

  function Pow(b: int, e: nat): int {
    if e == 0 then 1 else b * Pow(b, e - 1)
  }

  lemma {:induction false} PowPositive(b: int, e: nat)
    requires b >= 1
    ensures Pow(b, e) >= 1
  {
    if e > 0 {
      PowPositive(b, e - 1);
      MultiplyMonotone(Pow(b, e - 1), 1, b);
    }
  }

  /** With a multiplier of at least one, file sizes never shrink from level
      1 downwards. */
  lemma {:induction false} FileSizesNonDecreasing(i: nat, j: nat, base: uint64, multiplier: int32, style: CompactionStyle)
    requires 1 <= i <= j && multiplier >= 1
    ensures FileSizeAt(i, base, multiplier, style) <= FileSizeAt(j, base, multiplier, style)
    decreases j
  {
    if i < j {
      FileSizesNonDecreasing(i, j - 1, base, multiplier, style);
      var a := FileSizeAt(j - 1, base, multiplier, style);
      if a > 0 {
        MultiplyMonotone(a, 1, multiplier);
      }
    }
  }

  /** The `max_file_size` table for `n` levels. */
  function FileSizeTable(n: nat, base: uint64, multiplier: int32, style: CompactionStyle): (t: seq<uint64>)
    ensures |t| == n
    ensures forall i :: 0 <= i < n ==> t[i] == FileSizeAt(i, base, multiplier, style)
  {
    seq(n, i requires 0 <= i < n => FileSizeAt(i, base, multiplier, style))
  }

  /** `std::vector::resize`: keeps the first entries, pads with zeros. */
  function Resize(v: seq<uint64>, n: nat): (r: seq<uint64>)
    ensures |r| == n
    ensures forall i :: 0 <= i < n && i < |v| ==> r[i] == v[i]
  {
    if n <= |v| then v[..n] else v + seq(n - |v|, _ => 0)
  }

  /** The mutable column-family options this model follows. */
  datatype MutableOptions = MutableOptions(
    writeBufferSize: uint64,
    targetFileSizeBase: uint64,
    targetFileSizeMultiplier: int32,
    maxFileSize: seq<uint64>)

  class MutableCFOptions {
    var writeBufferSize: uint64
    var targetFileSizeBase: uint64
    var targetFileSizeMultiplier: int32
    var maxFileSize: seq<uint64>

    function Value(): MutableOptions
      reads this
    {
      MutableOptions(writeBufferSize, targetFileSizeBase, targetFileSizeMultiplier, maxFileSize)
    }

    constructor FromValue(v: MutableOptions)
      ensures Value() == v
    {
      writeBufferSize, targetFileSizeBase := v.writeBufferSize, v.targetFileSizeBase;
      targetFileSizeMultiplier, maxFileSize := v.targetFileSizeMultiplier, v.maxFileSize;
    }

    /** The implicit copy assignment. */
    method Assign(v: MutableOptions)
      modifies this
      ensures Value() == v
    {
      writeBufferSize, targetFileSizeBase := v.writeBufferSize, v.targetFileSizeBase;
      targetFileSizeMultiplier, maxFileSize := v.targetFileSizeMultiplier, v.maxFileSize;
    }

    /** `RefreshDerivedOptions`: resizes `max_file_size` to the number of
        levels and fills it level by level. */
    method RefreshDerivedOptions(numLevels: int32, style: CompactionStyle)
      requires numLevels >= 0
      modifies this
      ensures maxFileSize == FileSizeTable(numLevels, targetFileSizeBase, targetFileSizeMultiplier, style)
      ensures Value() == old(Value()).(maxFileSize := maxFileSize)
    {
      maxFileSize := Resize(maxFileSize, numLevels);
      for i := 0 to numLevels
        invariant |maxFileSize| == numLevels
        invariant forall j :: 0 <= j < i ==>
          maxFileSize[j] == FileSizeAt(j, targetFileSizeBase, targetFileSizeMultiplier, style)
        invariant Value() == old(Value()).(maxFileSize := maxFileSize)
      {
        var size: uint64;
        if i == 0 && style == Universal {
          size := ULLONG_MAX;
        } else if i > 1 {
          size := MultiplyCheckOverflow(maxFileSize[i - 1], targetFileSizeMultiplier);
        } else {
          size := targetFileSizeBase;
        }
        assert size == FileSizeAt(i, targetFileSizeBase, targetFileSizeMultiplier, style);
        maxFileSize := maxFileSize[i := size];
      }
    }
  }

  /** The table index `MaxFileSizeForLevel` reads: shifted down by the base
      level when dynamic level sizing under leveled compaction applies. */
  function LevelIndex(level: int, style: CompactionStyle, baseLevel: int, dynamicLevelBytes: bool): (r: int)
    ensures dynamicLevelBytes && style == Level && level >= baseLevel ==> r == level - baseLevel
    ensures !(dynamicLevelBytes && style == Level && level >= baseLevel) ==> r == level
    ensures level >= 0 && (dynamicLevelBytes && level >= baseLevel && style == Level ==> baseLevel >= 0)
      ==> 0 <= r <= level
    ensures dynamicLevelBytes && style == Level && level == baseLevel ==> r == 0
  {
    if !dynamicLevelBytes || level < baseLevel || style != Level then level
    else level - baseLevel
  }

  /** `MaxFileSizeForLevel`, whose asserts demand that the index it reads is
      inside the table. */
  function MaxFileSizeForLevel(
    o: MutableCFOptions, level: int, style: CompactionStyle, baseLevel: int, dynamicLevelBytes: bool): (r: uint64)
    reads o
    requires level >= 0
    requires dynamicLevelBytes && level >= baseLevel && style == Level ==> baseLevel >= 0
    requires LevelIndex(level, style, baseLevel, dynamicLevelBytes) < |o.maxFileSize|
    ensures 0 <= LevelIndex(level, style, baseLevel, dynamicLevelBytes)
    ensures r == o.maxFileSize[LevelIndex(level, style, baseLevel, dynamicLevelBytes)]
    ensures r in o.maxFileSize
  {
    if !dynamicLevelBytes || level < baseLevel || style != Level then
      o.maxFileSize[level]
    else
      o.maxFileSize[level - baseLevel]
  }

  /** Over a refreshed table, a level gets the size `RefreshDerivedOptions`
      computed for it, or, with dynamic level sizing under leveled
      compaction, the size of the level as far below level 0 as it is below
      the base level; the base level itself gets the target file size base. */
  lemma {:induction false} MaxFileSizeForLevelOverTable(
    o: MutableCFOptions, level: int, style: CompactionStyle, baseLevel: int, dynamicLevelBytes: bool)
    requires o.maxFileSize == FileSizeTable(|o.maxFileSize|, o.targetFileSizeBase, o.targetFileSizeMultiplier, style)
    requires level >= 0
    requires dynamicLevelBytes && level >= baseLevel && style == Level ==> baseLevel >= 0
    requires LevelIndex(level, style, baseLevel, dynamicLevelBytes) < |o.maxFileSize|
    ensures var i := LevelIndex(level, style, baseLevel, dynamicLevelBytes);
      0 <= i && MaxFileSizeForLevel(o, level, style, baseLevel, dynamicLevelBytes)
        == FileSizeAt(i, o.targetFileSizeBase, o.targetFileSizeMultiplier, style)
    ensures dynamicLevelBytes && style == Level && level == baseLevel ==>
      MaxFileSizeForLevel(o, level, style, baseLevel, dynamicLevelBytes) == o.targetFileSizeBase
  {
    var i := LevelIndex(level, style, baseLevel, dynamicLevelBytes);
    assert o.maxFileSize[i] == FileSizeAt(i, o.targetFileSizeBase, o.targetFileSizeMultiplier, style);
  }

  /** `GetMutableOptionsFromStrings`: start from the base options, let the
      option-table parser update them, and put the base options back when
      it fails. When `newOptions` is the base object itself, that restore
      assigns the object to itself and the parser's partial updates stay. */
  method GetMutableOptionsFromStrings(
    base: MutableCFOptions, optionsMap: map<string, string>, newOptions: MutableCFOptions,
    parseType: (MutableOptions, map<string, string>) -> (StatusValue, MutableOptions))
    returns (s: StatusValue)
    modifies newOptions
    ensures s == parseType(old(base.Value()), optionsMap).0
    ensures s.IsOk() ==> newOptions.Value() == parseType(old(base.Value()), optionsMap).1
    ensures !s.IsOk() && newOptions != base ==> newOptions.Value() == old(base.Value())
    ensures !s.IsOk() && newOptions == base ==> newOptions.Value() == parseType(old(base.Value()), optionsMap).1
  {
    newOptions.Assign(base.Value());
    var (status, parsed) := parseType(newOptions.Value(), optionsMap);
    newOptions.Assign(parsed);
    s := status;
    if !s.IsOk() {
      newOptions.Assign(base.Value());
    }
  }
}
