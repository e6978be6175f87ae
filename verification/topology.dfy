/**
 * The topology file reader of main.py: a `[ROUTERS]` line followed by
 * blocks of an `id:` line, an `inputs:` line, an `outputs:` line and a
 * blank separator, each block becoming one RouterConfig. The file arrives
 * as its lines (each may still carry its line break); opening and reading
 * the file is not part of this model.
 */
module Topology {
  import opened Wrappers
  import opened Routing

  const ROUTERS_MAX: nat := 8
  const FILE_HEADER: string := "[ROUTERS]"

  /** What read_router_files raises: a formatting error, an IndexError on a missing line, too many routers. */
  datatype FileError = ImproperFormatting | MissingLine | TooManyRouters

  // ---------------------------------------------------------------------------
  // Strings
  // ---------------------------------------------------------------------------

  /** The ASCII characters str.strip removes: tab through carriage return, the four separators 0x1C-0x1F, space. */
  predicate IsSpace(c: char)
  {
    ('\t' <= c <= '\r') || ('\U{001C}' <= c <= ' ')
  }

  function TrimLeft(s: string): string
  {
    if s != [] && IsSpace(s[0]) then TrimLeft(s[1..]) else s
  }

  function TrimRight(s: string): string
  {
    if s != [] && IsSpace(s[|s| - 1]) then TrimRight(s[..|s| - 1]) else s
  }

  /** str.strip() */
  function Strip(s: string): string
  {
    TrimRight(TrimLeft(s))
  }

  lemma {:induction false} TrimLeftSpec(s: string)
    ensures var r := TrimLeft(s);
            |r| <= |s| && r == s[|s| - |r|..] && (r == [] || !IsSpace(r[0])) &&
            forall i :: 0 <= i < |s| - |r| ==> IsSpace(s[i])
  {
    if s != [] && IsSpace(s[0]) {
      TrimLeftSpec(s[1..]);
    }
  }

  lemma {:induction false} TrimRightSpec(s: string)
    ensures var r := TrimRight(s);
            |r| <= |s| && r == s[..|r|] && (r == [] || !IsSpace(r[|r| - 1])) &&
            forall i :: |r| <= i < |s| ==> IsSpace(s[i])
  {
    if s != [] && IsSpace(s[|s| - 1]) {
      TrimRightSpec(s[..|s| - 1]);
    }
  }

  /**
   * Strip keeps one contiguous run of the string, s[lo..hi], which neither
   * starts nor ends with whitespace; everything cut off on either side is
   * whitespace.
   */
  lemma StripSpec(s: string)
    ensures exists lo, hi :: 0 <= lo <= hi <= |s| && Strip(s) == s[lo..hi] &&
              (forall i :: 0 <= i < lo ==> IsSpace(s[i])) && (forall i :: hi <= i < |s| ==> IsSpace(s[i]))
    ensures Strip(s) == [] || (!IsSpace(Strip(s)[0]) && !IsSpace(Strip(s)[|Strip(s)| - 1]))
  {
    var l := TrimLeft(s);
    TrimLeftSpec(s);
    TrimRightSpec(l);
    var lo := |s| - |l|;
    var hi := lo + |TrimRight(l)|;
    assert Strip(s) == s[lo..hi];
    forall i | hi <= i < |s|
      ensures IsSpace(s[i])
    {
      assert s[i] == l[i - lo];
    }
  }

  /** A string that starts and ends with a non-space character is its own strip. */
  lemma StripNoop(s: string)
    requires s != [] && !IsSpace(s[0]) && !IsSpace(s[|s| - 1])
    ensures Strip(s) == s
  {
  }

  /** s[:n] */
  function Prefix(s: string, n: nat): string
  {
    if |s| <= n then s else s[..n]
  }

  /** s[n:] */
  function Drop(s: string, n: nat): string
  {
    if |s| <= n then [] else s[n..]
  }

  /** str.split(sep): the pieces between separators, one more than there are separators. */
  function Split(s: string, sep: char): (parts: seq<string>)
    ensures |parts| >= 1
    ensures forall i :: 0 <= i < |parts| ==> sep !in parts[i]
  {
    if s == [] then [[]]
    else
      var rest := Split(s[1..], sep);
      if s[0] == sep then [[]] + rest else [[s[0]] + rest[0]] + rest[1..]
  }

  /** sep.join(parts), the inverse of Split. */
  function Join(parts: seq<string>, sep: char): string
    requires |parts| >= 1
  {
    if |parts| == 1 then parts[0] else parts[0] + [sep] + Join(parts[1..], sep)
  }

  /** Splitting and re-joining gives back the string. */
  lemma {:induction false} JoinSplit(s: string, sep: char)
    ensures Join(Split(s, sep), sep) == s
  {
    if s != [] {
      JoinSplit(s[1..], sep);
      var rest := Split(s[1..], sep);
      if s[0] != sep {
        var parts := [[s[0]] + rest[0]] + rest[1..];
        assert parts[1..] == rest[1..];
      }
    }
  }

  lemma {:induction false} SplitNoSep(a: string, sep: char)
    requires sep !in a
    ensures Split(a, sep) == [a]
  {
    if a != [] {
      SplitNoSep(a[1..], sep);
      assert [a[0]] + a[1..] == a;
    }
  }

  lemma {:induction false} SplitAfter(a: string, b: string, sep: char)
    requires sep !in a
    ensures Split(a + [sep] + b, sep) == [a] + Split(b, sep)
  {
    var s := a + [sep] + b;
    if a == [] {
      assert s[1..] == b;
    } else {
      assert s[1..] == a[1..] + [sep] + b;
      SplitAfter(a[1..], b, sep);
      assert [a[0]] + a[1..] == a;
    }
  }

  /** Joining pieces that hold no separator and splitting again gives back the pieces. */
  lemma {:induction false} SplitJoin(parts: seq<string>, sep: char)
    requires |parts| >= 1 && forall i :: 0 <= i < |parts| ==> sep !in parts[i]
    ensures Split(Join(parts, sep), sep) == parts
  {
    if |parts| == 1 {
      SplitNoSep(parts[0], sep);
    } else {
      SplitJoin(parts[1..], sep);
      SplitAfter(parts[0], Join(parts[1..], sep), sep);
    }
  }

  /** A join of non-empty pieces starts with the first piece's first character and ends with the last piece's last. */
  lemma {:induction false} JoinEnds(parts: seq<string>, sep: char)
    requires |parts| >= 1 && forall i :: 0 <= i < |parts| ==> parts[i] != []
    ensures var j := Join(parts, sep);
            var last := parts[|parts| - 1];
            j != [] && j[0] == parts[0][0] && j[|j| - 1] == last[|last| - 1]
  {
    if |parts| > 1 {
      JoinEnds(parts[1..], sep);
    }
  }

  // ---------------------------------------------------------------------------
  // Integers
  // ---------------------------------------------------------------------------

  predicate IsDigit(c: char)
  {
    '0' <= c <= '9'
  }

  predicate AllDigits(s: string)
  {
    forall i :: 0 <= i < |s| ==> IsDigit(s[i])
  }

  /** The value of a string of decimal digits. */
  function DigitsValue(s: string): nat
    requires AllDigits(s)
  {
    if s == [] then 0 else 10 * DigitsValue(s[..|s| - 1]) + (s[|s| - 1] as int - '0' as int)
  }

  /**
   * int(): surrounding whitespace, an optional sign, then one or more
   * decimal digits; anything else is a ValueError (None).
   */
  function ParseInt(s: string): Option<int>
  {
    var t := Strip(s);
    if t != [] && (t[0] == '-' || t[0] == '+') then
      if |t| >= 2 && AllDigits(t[1..]) then
        var magnitude: int := DigitsValue(t[1..]);
        Some(if t[0] == '-' then -magnitude else magnitude)
      else None
    else if t != [] && AllDigits(t) then Some(DigitsValue(t))
    else None
  }

  function Digit(d: nat): char
    requires d < 10
  {
    ('0' as int + d) as char
  }

  /** The decimal digits of n, without leading zeros. */
  function NatToString(n: nat): (s: string)
    ensures s != [] && AllDigits(s)
  {
    if n < 10 then [Digit(n)] else NatToString(n / 10) + [Digit(n % 10)]
  }

  /** str(n) */
  function IntToString(n: int): (s: string)
  {
    if n < 0 then "-" + NatToString(-n) else NatToString(n)
  }

  lemma {:induction false} NatStringRoundTrip(n: nat)
    ensures DigitsValue(NatToString(n)) == n
  {
    if n >= 10 {
      NatStringRoundTrip(n / 10);
      var s := NatToString(n / 10) + [Digit(n % 10)];
      assert s[..|s| - 1] == NatToString(n / 10);
    }
  }

  /** Parsing the decimal rendering of any integer gives it back. */
  lemma IntStringRoundTrip(n: int)
    ensures ParseInt(IntToString(n)) == Some(n)
  {
    var s := IntToString(n);
    IntStringShape(n);
    StripNoop(s);
    if n < 0 {
      NatStringRoundTrip(-n);
      assert s[1..] == NatToString(-n);
    } else {
      NatStringRoundTrip(n);
    }
  }

  /** A rendered integer is non-empty, holds only a sign and digits, and starts and ends with a non-space. */
  lemma IntStringShape(n: int)
    ensures var s := IntToString(n);
            s != [] && !IsSpace(s[0]) && !IsSpace(s[|s| - 1]) && IsDigit(s[|s| - 1]) &&
            forall i :: 0 <= i < |s| ==> IsDigit(s[i]) || s[i] == '-'
  {
  }

  /**
   * A list comprehension `[f(x) for x in xs]` whose f may raise: the
   * converted elements in order, or None when any element fails.
   */
  function ParseAll<T, U>(xs: seq<T>, f: T -> Option<U>): Option<seq<U>>
  {
    if xs == [] then Some([])
    else
      var y := f(xs[0]);
      var ys := ParseAll(xs[1..], f);
      if y.Some? && ys.Some? then Some([y.value] + ys.value) else None
  }

  /** The comprehension succeeds exactly when every element converts, and then holds the converted elements in order. */
  lemma {:induction false} ParseAllSpec<T, U>(xs: seq<T>, f: T -> Option<U>)
    ensures ParseAll(xs, f).Some? <==> forall i :: 0 <= i < |xs| ==> f(xs[i]).Some?
    ensures ParseAll(xs, f).Some? ==>
              |ParseAll(xs, f).value| == |xs| && forall i :: 0 <= i < |xs| ==> ParseAll(xs, f).value[i] == f(xs[i]).value
  {
    if xs != [] {
      ParseAllSpec(xs[1..], f);
      if forall i :: 0 <= i < |xs| ==> f(xs[i]).Some? {
        forall i | 0 <= i < |xs| - 1
          ensures f(xs[1..][i]).Some?
        {
          assert xs[1..][i] == xs[i + 1];
        }
      }
      if ParseAll(xs, f).Some? {
        var ys := ParseAll(xs[1..], f).value;
        forall i | 0 <= i < |xs|
          ensures f(xs[i]).Some? && ParseAll(xs, f).value[i] == f(xs[i]).value
        {
          if i > 0 {
            assert xs[i] == xs[1..][i - 1];
          }
        }
      }
    }
  }

  /** When every element converts to the matching value, the comprehension yields exactly those values. */
  lemma ParseAllEach<T, U>(xs: seq<T>, f: T -> Option<U>, ys: seq<U>)
    requires |xs| == |ys| && forall i :: 0 <= i < |xs| ==> f(xs[i]) == Some(ys[i])
    ensures ParseAll(xs, f) == Some(ys)
  {
    ParseAllSpec(xs, f);
    assert ParseAll(xs, f).value == ys;
  }

  // ---------------------------------------------------------------------------
  // _to_output and the block format
  // ---------------------------------------------------------------------------

  /** _to_output: `id:port:metric` (surrounding whitespace ignored); fields after the third are ignored. */
  function ToOutput(token: string): Option<Output>
  {
    var fields := Split(Strip(token), ':');
    if |fields| < 3 then None
    else
      var id := ParseInt(fields[0]);
      var port := ParseInt(fields[1]);
      var metric := ParseInt(fields[2]);
      if id.Some? && port.Some? && metric.Some? then Some(Output(id.value, port.value, metric.value)) else None
  }

  /**
   * The format check of one block, in the source's short-circuit order: a
   * wrong first line is a formatting error even when the lines after it are
   * missing, and a missing line is an IndexError.
   */
  function CheckBlock(lines: seq<string>): (r: Outcome<FileError>)
    ensures r.Pass? <==>
              |lines| >= 3 && Prefix(lines[0], 3) == "id:" && Prefix(lines[1], 7) == "inputs:" &&
              Prefix(lines[2], 8) == "outputs:" && (|lines| >= 4 ==> Strip(lines[3]) == "")
    ensures r == Fail(MissingLine) ==> |lines| < 3
  {
    if |lines| < 1 then Fail(MissingLine)
    else if Prefix(lines[0], 3) != "id:" then Fail(ImproperFormatting)
    else if |lines| < 2 then Fail(MissingLine)
    else if Prefix(lines[1], 7) != "inputs:" then Fail(ImproperFormatting)
    else if |lines| < 3 then Fail(MissingLine)
    else if Prefix(lines[2], 8) != "outputs:" then Fail(ImproperFormatting)
    else if |lines| >= 4 && Strip(lines[3]) != "" then Fail(ImproperFormatting)
    else Pass
  }

  /** The parsing step of one block: any field that is not an integer is a formatting error. */
  function ParseBlock(lines: seq<string>): Result<RouterConfig, FileError>
    requires |lines| >= 3
  {
    var id := ParseInt(Strip(Drop(lines[0], 3)));
    var inputs := ParseAll(Split(Strip(Drop(lines[1], 7)), ','), ParseInt);
    var outputs := ParseAll(Split(Strip(Drop(lines[2], 8)), ','), ToOutput);
    if id.Some? && inputs.Some? && outputs.Some? then Ok(RouterConfig(id.value, inputs.value, outputs.value))
    else Err(ImproperFormatting)
  }

  /** One turn of the loop: the format check, then the parse. */
  function Block(lines: seq<string>): Result<RouterConfig, FileError>
  {
    match CheckBlock(lines)
    case Fail(e) => Err(e)
    case Pass => ParseBlock(lines)
  }

  /** `lines[4:] if len(lines) >= 4 else []` */
  function NextBlock(lines: seq<string>): seq<string>
  {
    if |lines| >= 4 then lines[4..] else []
  }

  /**
   * The while loop of read_router_files, as a recursion over the remaining
   * lines, for a given reading of one block.
   */
  function Blocks(lines: seq<string>, block: seq<string> -> Result<RouterConfig, FileError>): Result<seq<RouterConfig>, FileError>
    decreases |lines|
  {
    if lines == [] then Ok([])
    else
      match block(lines)
      case Err(e) => Err(e)
      case Ok(c) =>
        match Blocks(NextBlock(lines), block)
        case Err(e) => Err(e)
        case Ok(cs) => Ok([c] + cs)
  }

  /** read_router_files on the file's lines. */
  function ParseRouterFile(lines: seq<string>): Result<seq<RouterConfig>, FileError>
  {
    if lines == [] then Err(MissingLine)
    else if Strip(lines[0]) != FILE_HEADER then Err(ImproperFormatting)
    else
      match Blocks(lines[1..], Block)
      case Err(e) => Err(e)
      case Ok(cs) => if |cs| > ROUTERS_MAX then Err(TooManyRouters) else Ok(cs)
  }

  function PrependAll(configs: seq<RouterConfig>, r: Result<seq<RouterConfig>, FileError>): Result<seq<RouterConfig>, FileError>
  {
    match r
    case Ok(cs) => Ok(configs + cs)
    case Err(e) => Err(e)
  }

  /** One turn of the loop: a good first block contributes its config ahead of the rest. */
  lemma BlocksStep(configs: seq<RouterConfig>, lines: seq<string>, block: seq<string> -> Result<RouterConfig, FileError>)
    requires lines != [] && block(lines).Ok?
    ensures PrependAll(configs, Blocks(lines, block))
         == PrependAll(configs + [block(lines).value], Blocks(NextBlock(lines), block))
  {
    var r := Blocks(NextBlock(lines), block);
    if r.Ok? {
      assert configs + ([block(lines).value] + r.value) == configs + [block(lines).value] + r.value;
    }
  }

  /** read_router_files as the source runs it: pop the header, then consume blocks until no line is left. */
  method ReadRouterFile(fileLines: seq<string>) returns (r: Result<seq<RouterConfig>, FileError>)
    ensures r == ParseRouterFile(fileLines)
  {
    if |fileLines| == 0 {
      return Err(MissingLine);
    }
    var lines := fileLines[1..];
    if Strip(fileLines[0]) != FILE_HEADER {
      return Err(ImproperFormatting);
    }
    var configs: seq<RouterConfig> := [];
    ghost var all := Blocks(lines, Block);
    assert all == PrependAll(configs, Blocks(lines, Block)) by {
      if all.Ok? {
        assert [] + all.value == all.value;
      }
    }
    while |lines| != 0
      invariant all == PrependAll(configs, Blocks(lines, Block))
      decreases |lines|
    {
      var check := CheckBlock(lines);
      if check.Fail? {
        assert Blocks(lines, Block) == Err(check.error);
        return Err(check.error);
      }
      var config := ParseBlock(lines);
      if config.Err? {
        assert Blocks(lines, Block) == Err(config.error);
        return Err(config.error);
      }
      assert Block(lines) == config;
      BlocksStep(configs, lines, Block);
      configs := configs + [config.value];
      lines := NextBlock(lines);
    }
    assert all == Ok(configs) by {
      assert configs + [] == configs;
    }
    if |configs| > ROUTERS_MAX {
      return Err(TooManyRouters);
    }
    return Ok(configs);
  }

  // ---------------------------------------------------------------------------
  // Properties of the reader
  // ---------------------------------------------------------------------------

  /** A file is accepted only if its first line, stripped, is `[ROUTERS]`, and with at most ROUTERS_MAX routers. */
  lemma HeaderRequired(lines: seq<string>)
    ensures ParseRouterFile(lines).Ok? ==>
              lines != [] && Strip(lines[0]) == FILE_HEADER && |ParseRouterFile(lines).value| <= ROUTERS_MAX
    ensures lines != [] && Strip(lines[0]) != FILE_HEADER ==> ParseRouterFile(lines) == Err(ImproperFormatting)
    ensures (lines != [] && Strip(lines[0]) == FILE_HEADER && Blocks(lines[1..], Block).Ok? &&
             |Blocks(lines[1..], Block).value| > ROUTERS_MAX) ==> ParseRouterFile(lines) == Err(TooManyRouters)
  {
  }

  /** The number of blocks in `n` lines when each consumes 4, the last possibly fewer. */
  function BlockCount(n: nat): nat
  {
    (n + 3) / 4
  }

  /** The reading of block i, which starts at line 4i. */
  function BlockAt(lines: seq<string>, block: seq<string> -> Result<RouterConfig, FileError>, i: nat): Result<RouterConfig, FileError>
    requires 4 * i < |lines|
  {
    block(lines[4 * i..])
  }

  /**
   * The blocks parse exactly when every block, starting at lines 0, 4, 8, ...,
   * reads well; then there is one config per block, in file order, config i
   * read from the lines starting at 4i.
   */
  lemma {:induction false} BlocksShape(lines: seq<string>, block: seq<string> -> Result<RouterConfig, FileError>)
    ensures Blocks(lines, block).Ok? <==> forall i :: 0 <= i < BlockCount(|lines|) ==> BlockAt(lines, block, i).Ok?
    ensures Blocks(lines, block).Ok? ==>
              var cs := Blocks(lines, block).value;
              |cs| == BlockCount(|lines|) &&
              forall i :: 0 <= i < |cs| ==> BlockAt(lines, block, i).Ok? && cs[i] == BlockAt(lines, block, i).value
    decreases |lines|
  {
    if lines != [] {
      var rest := NextBlock(lines);
      BlocksShape(rest, block);
      assert BlockAt(lines, block, 0) == block(lines) by {
        assert lines[4 * 0..] == lines;
      }
      if |lines| >= 4 {
        assert BlockCount(|lines|) == 1 + BlockCount(|rest|);
        forall i | 1 <= i < BlockCount(|lines|)
          ensures BlockAt(lines, block, i) == BlockAt(rest, block, i - 1)
        {
          assert lines[4 * i..] == rest[4 * (i - 1)..];
        }
        if forall i :: 0 <= i < BlockCount(|lines|) ==> BlockAt(lines, block, i).Ok? {
          forall i | 0 <= i < BlockCount(|rest|)
            ensures BlockAt(rest, block, i).Ok?
          {
            assert BlockAt(lines, block, i + 1).Ok?;
          }
        }
        if Blocks(lines, block).Ok? {
          var cs := Blocks(lines, block).value;
          forall i | 0 <= i < BlockCount(|lines|)
            ensures BlockAt(lines, block, i).Ok? && cs[i] == BlockAt(lines, block, i).value
          {
            if i > 0 {
              assert BlockAt(rest, block, i - 1).Ok?;
            }
          }
        }
      } else {
        assert BlockCount(|lines|) == 1 && rest == [];
      }
    }
  }

  /** Block i, at lines 4i, passes the format check and the parse. */
  predicate GoodBlockAt(lines: seq<string>, i: nat)
    requires 4 * i < |lines|
  {
    CheckBlock(lines[4 * i..]).Pass? && ParseBlock(lines[4 * i..]).Ok?
  }

  /**
   * read_router_files accepts its blocks exactly when each block, at lines
   * 4i after the header, passes the check and the parse, and returns their
   * configs in file order.
   */
  lemma ParseBlocksShape(lines: seq<string>)
    ensures Blocks(lines, Block).Ok? <==> forall i :: 0 <= i < BlockCount(|lines|) ==> GoodBlockAt(lines, i)
    ensures Blocks(lines, Block).Ok? ==>
              var cs := Blocks(lines, Block).value;
              |cs| == BlockCount(|lines|) &&
              forall i :: 0 <= i < |cs| ==> GoodBlockAt(lines, i) && cs[i] == ParseBlock(lines[4 * i..]).value
  {
    BlocksShape(lines, Block);
    forall i | 0 <= i < BlockCount(|lines|)
      ensures BlockAt(lines, Block, i).Ok? <==> GoodBlockAt(lines, i)
      ensures GoodBlockAt(lines, i) ==> BlockAt(lines, Block, i).value == ParseBlock(lines[4 * i..]).value
    {
    }
  }

  // ---------------------------------------------------------------------------
  // Rendering a topology, and reading it back
  // ---------------------------------------------------------------------------

  function IntStrings(xs: seq<int>): (r: seq<string>)
    ensures |r| == |xs| && forall i :: 0 <= i < |xs| ==> r[i] == IntToString(xs[i])
  {
    seq(|xs|, i requires 0 <= i < |xs| => IntToString(xs[i]))
  }

  function OutputToken(o: Output): string
  {
    IntToString(o.id) + ":" + IntToString(o.port) + ":" + IntToString(o.metric)
  }

  function OutputTokens(os: seq<Output>): (r: seq<string>)
    ensures |r| == |os| && forall i :: 0 <= i < |os| ==> r[i] == OutputToken(os[i])
  {
    seq(|os|, i requires 0 <= i < |os| => OutputToken(os[i]))
  }

  predicate Renderable(c: RouterConfig)
  {
    |c.inputs| >= 1 && |c.outputs| >= 1
  }

  /** One block as the file format lays it out: `id:`, `inputs:`, `outputs:` and a blank separator. */
  function RenderConfig(c: RouterConfig): seq<string>
    requires Renderable(c)
  {
    ["id:" + IntToString(c.id),
     "inputs:" + Join(IntStrings(c.inputs), ','),
     "outputs:" + Join(OutputTokens(c.outputs), ','),
     ""]
  }

  function RenderBlocks(cs: seq<RouterConfig>): seq<string>
    requires forall i :: 0 <= i < |cs| ==> Renderable(cs[i])
  {
    if cs == [] then [] else RenderConfig(cs[0]) + RenderBlocks(cs[1..])
  }

  /** A routers file listing the given configurations. */
  function RenderRouterFile(cs: seq<RouterConfig>): seq<string>
    requires forall i :: 0 <= i < |cs| ==> Renderable(cs[i])
  {
    [FILE_HEADER] + RenderBlocks(cs)
  }

  lemma NoSeparatorIn(n: int, sep: char)
    requires sep == ',' || sep == ':'
    ensures sep !in IntToString(n)
  {
    IntStringShape(n);
  }

  /** An output token `a:b:c` becomes Output(id=a, port=b, metric=c). */
  lemma OutputTokenRoundTrip(o: Output)
    ensures ToOutput(OutputToken(o)) == Some(o)
  {
    var a, b, c := IntToString(o.id), IntToString(o.port), IntToString(o.metric);
    IntStringShape(o.id);
    IntStringShape(o.metric);
    var t := OutputToken(o);
    assert t == a + [':'] + (b + [':'] + c);
    StripNoop(t);
    NoSeparatorIn(o.id, ':');
    NoSeparatorIn(o.port, ':');
    NoSeparatorIn(o.metric, ':');
    SplitAfter(a, b + [':'] + c, ':');
    SplitAfter(b, c, ':');
    SplitNoSep(c, ':');
    IntStringRoundTrip(o.id);
    IntStringRoundTrip(o.port);
    IntStringRoundTrip(o.metric);
  }

  /** The comma-separated list after a line's tag is read back as the pieces that were joined. */
  lemma ListRoundTrip(tag: string, parts: seq<string>)
    requires |parts| >= 1
    requires forall i :: 0 <= i < |parts| ==> parts[i] != [] && ',' !in parts[i]
    requires forall i :: 0 <= i < |parts| ==> !IsSpace(parts[i][0]) && !IsSpace(parts[i][|parts[i]| - 1])
    ensures Split(Strip(Drop(tag + Join(parts, ','), |tag|)), ',') == parts
  {
    var j := Join(parts, ',');
    assert Drop(tag + j, |tag|) == j;
    JoinEnds(parts, ',');
    StripNoop(j);
    SplitJoin(parts, ',');
  }

  /** The `id:` line of a rendered block reads back as the id. */
  lemma IdLineRoundTrip(id: int)
    ensures ParseInt(Strip(Drop("id:" + IntToString(id), 3))) == Some(id)
  {
    var text := IntToString(id);
    assert Drop("id:" + text, 3) == text;
    IntStringShape(id);
    StripNoop(text);
    IntStringRoundTrip(id);
  }

  /** The `inputs:` line of a rendered block reads back as the input ports. */
  lemma InputsLineRoundTrip(inputs: seq<int>)
    requires |inputs| >= 1
    ensures ParseAll(Split(Strip(Drop("inputs:" + Join(IntStrings(inputs), ','), 7)), ','), ParseInt) == Some(inputs)
  {
    var ins := IntStrings(inputs);
    forall i | 0 <= i < |ins|
      ensures ins[i] != [] && ',' !in ins[i] && !IsSpace(ins[i][0]) && !IsSpace(ins[i][|ins[i]| - 1])
      ensures ParseInt(ins[i]) == Some(inputs[i])
    {
      IntStringShape(inputs[i]);
      NoSeparatorIn(inputs[i], ',');
      IntStringRoundTrip(inputs[i]);
    }
    ListRoundTrip("inputs:", ins);
    ParseAllEach(ins, ParseInt, inputs);
  }

  /** The `outputs:` line of a rendered block reads back as the outputs. */
  lemma OutputsLineRoundTrip(outputs: seq<Output>)
    requires |outputs| >= 1
    ensures ParseAll(Split(Strip(Drop("outputs:" + Join(OutputTokens(outputs), ','), 8)), ','), ToOutput) == Some(outputs)
  {
    var outs := OutputTokens(outputs);
    forall i | 0 <= i < |outs|
      ensures outs[i] != [] && ',' !in outs[i] && !IsSpace(outs[i][0]) && !IsSpace(outs[i][|outs[i]| - 1])
      ensures ToOutput(outs[i]) == Some(outputs[i])
    {
      var o := outputs[i];
      IntStringShape(o.id);
      IntStringShape(o.metric);
      NoSeparatorIn(o.id, ',');
      NoSeparatorIn(o.port, ',');
      NoSeparatorIn(o.metric, ',');
      OutputTokenRoundTrip(o);
    }
    ListRoundTrip("outputs:", outs);
    ParseAllEach(outs, ToOutput, outputs);
  }

  /** A rendered block, whatever follows it, passes the check and parses back to its config. */
  lemma BlockRoundTrip(c: RouterConfig, rest: seq<string>)
    requires Renderable(c)
    ensures Block(RenderConfig(c) + rest) == Ok(c)
  {
    var lines := RenderConfig(c) + rest;
    assert Prefix(lines[0], 3) == "id:";
    assert Prefix(lines[1], 7) == "inputs:";
    assert Prefix(lines[2], 8) == "outputs:";
    assert Strip(lines[3]) == "";
    IdLineRoundTrip(c.id);
    InputsLineRoundTrip(c.inputs);
    OutputsLineRoundTrip(c.outputs);
  }

  /** Every rendered block, whatever follows it, reads back as its config. */
  ghost predicate ReadsBack(block: seq<string> -> Result<RouterConfig, FileError>)
  {
    forall c, rest :: Renderable(c) ==> block(RenderConfig(c) + rest) == Ok(c)
  }

  /** A reading of single blocks that undoes RenderConfig reads back a whole rendered sequence of blocks. */
  lemma {:induction false} BlocksRoundTrip(cs: seq<RouterConfig>, block: seq<string> -> Result<RouterConfig, FileError>)
    requires ReadsBack(block)
    requires forall i :: 0 <= i < |cs| ==> Renderable(cs[i])
    ensures Blocks(RenderBlocks(cs), block) == Ok(cs)
  {
    if cs != [] {
      var tail := RenderBlocks(cs[1..]);
      var lines := RenderConfig(cs[0]) + tail;
      assert block(lines) == Ok(cs[0]);
      assert NextBlock(lines) == tail;
      BlocksRoundTrip(cs[1..], block);
      assert [cs[0]] + cs[1..] == cs;
    }
  }

  /**
   * Rendering up to ROUTERS_MAX configurations (each with at least one input
   * and one output) in the file format and reading the file back gives the
   * same configurations in the same order.
   */
  lemma RouterFileRoundTrip(cs: seq<RouterConfig>)
    requires |cs| <= ROUTERS_MAX && forall i :: 0 <= i < |cs| ==> Renderable(cs[i])
    ensures ParseRouterFile(RenderRouterFile(cs)) == Ok(cs)
  {
    var lines := RenderRouterFile(cs);
    StripNoop(FILE_HEADER);
    assert lines[1..] == RenderBlocks(cs);
    forall c, rest | Renderable(c)
      ensures Block(RenderConfig(c) + rest) == Ok(c)
    {
      BlockRoundTrip(c, rest);
    }
    BlocksRoundTrip(cs, Block);
  }
}
