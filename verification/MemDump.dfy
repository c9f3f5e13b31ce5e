/** A memory-dump request on its way from the client's command line, through the server's text for the kernel module,
    to the copy that the module makes. */
module MemDump {
  import opened Common
  import opened Words

  const MAXDATASIZE: nat := 256
  const SIZE: nat := 256
  const LAST_READABLE_ADDRESS: int := 0x37bfdfff

  // ----- The client's command line -----

  function Spaces(line: string): nat { if line == "" then 0 else One(line[0] == ' ') + Spaces(line[1..]) }

  /** How many characters come before the first space. */
  function Word(line: string): (n: nat)
    ensures n <= |line| && (n < |line| ==> line[n] == ' ') && (forall i :: 0 <= i < n ==> line[i] != ' ')
  {
    if line == "" || line[0] == ' ' then 0 else 1 + Word(line[1..])
  }

  /** What strtok finds: the stretches between spaces. */
  function Tokens(line: string): seq<string> {
    if line == "" then []
    else if line[0] == ' ' then Tokens(line[1..])
    else [line[..Word(line)]] + Tokens(line[Word(line)..])
  }

  lemma {:induction false} SpacesFrom(line: string, n: nat)
    requires n <= |line| && (forall i :: 0 <= i < n ==> line[i] != ' ')
    ensures Spaces(line[n..]) == Spaces(line)
    decreases n
  {
    if n == 0 {
      assert line[0..] == line;
    } else {
      SpacesFrom(line[1..], n - 1);
      assert line[1..][n - 1..] == line[n..];
    }
  }

  /** The array that split allocates has room for the tokens; adjacent spaces leave entries of it empty. */
  lemma {:induction false} TokensFit(line: string)
    ensures |Tokens(line)| <= Spaces(line) + 1
    decreases |line|
  {
    if line != "" {
      if line[0] == ' ' {
        TokensFit(line[1..]);
      } else {
        var rest := line[Word(line)..];
        SpacesFrom(line, Word(line));
        if rest != "" {
          TokensFit(rest[1..]);
        }
      }
    }
  }

  /** A stretch without spaces starts at `i`. */
  predicate StartsAt(line: string, i: nat)
    requires i < |line|
  {
    line[i] != ' ' && (i == 0 || line[i - 1] == ' ')
  }

  /** How many stretches start before `i`. */
  function Starts(line: string, i: nat): nat
    requires i <= |line|
  {
    if i == 0 then 0 else Starts(line, i - 1) + One(StartsAt(line, i - 1))
  }

  /** Counting on from a place that splits no stretch. */
  lemma {:induction false} StartsFrom(line: string, d: nat, i: nat)
    requires d <= i <= |line| && (0 < d < |line| ==> line[d] == ' ' || line[d - 1] == ' ')
    ensures Starts(line, i) == Starts(line, d) + Starts(line[d..], i - d)
    decreases i
  {
    if d < i {
      StartsFrom(line, d, i - 1);
    }
  }

  /** The first stretch is the only one that starts in it. */
  lemma {:induction false} StartsInWord(line: string, i: nat)
    requires line != "" && line[0] != ' ' && 0 < i <= Word(line)
    ensures Starts(line, i) == 1
    decreases i
  {
    if i > 1 {
      StartsInWord(line, i - 1);
    } else {
      assert Starts(line, 0) == 0;
    }
  }

  lemma FirstToken(line: string)
    requires line != "" && line[0] != ' '
    ensures Word(line) > 0 && Tokens(line) == [line[..Word(line)]] + Tokens(line[Word(line)..])
  {
  }

  lemma NoToken(line: string)
    requires line != "" && line[0] == ' '
    ensures Tokens(line) == Tokens(line[1..]) && Starts(line, 1) == 0
  {
    assert Starts(line, 0) == 0;
  }

  lemma StartOfLine(line: string)
    ensures Starts(line, 0) == 0 && line[0..] == line
  {
  }

  /** The tokens are the stretches between spaces, each as long as it can be, all of them and in order. */
  lemma {:induction false} TokensExact(line: string, i: nat)
    requires i < |line| && StartsAt(line, i)
    ensures var n := Starts(line, i);
            n < |Tokens(line)| && Tokens(line)[n] == line[i..i + Word(line[i..])]
    decreases |line|, 1
  {
    hide Tokens, Starts, Word;
    if line[0] == ' ' {
      NoToken(line);
      TokensAfter(line, 1, i);
    } else {
      FirstToken(line);
      StartOfLine(line);
      if i > 0 {
        StartsInWord(line, Word(line));
        TokensAfter(line, Word(line), i);
      }
    }
  }

  lemma {:induction false} TokensAfter(line: string, d: nat, i: nat)
    requires 0 < d <= i < |line| && StartsAt(line, i) && (line[d] == ' ' || line[d - 1] == ' ')
    ensures var n := Starts(line, i) - Starts(line, d);
            0 <= n < |Tokens(line[d..])| && Tokens(line[d..])[n] == line[i..i + Word(line[i..])]
    decreases |line|, 0
  {
    hide Tokens, Starts, Word;
    StartsFrom(line, d, i);
    TokensExact(line[d..], i - d);
    assert line[d..][i - d..] == line[i..];
    SliceOf(line, d, i, Word(line[i..]));
  }

  lemma SliceOf(line: string, d: nat, i: nat, n: nat)
    requires d <= i && i + n <= |line|
    ensures line[d..][i - d..i - d + n] == line[i..i + n]
  {
  }

  lemma {:induction false} TokensCounted(line: string)
    ensures |Tokens(line)| == Starts(line, |line|)
    decreases |line|
  {
    if line != "" {
      if line[0] == ' ' {
        StartsFrom(line, 1, |line|);
        assert Starts(line, 1) == 0;
        TokensCounted(line[1..]);
      } else {
        StartsInWord(line, Word(line));
        StartsFrom(line, Word(line), |line|);
        TokensCounted(line[Word(line)..]);
      }
    }
  }

  /** split, with a space as the delimiter: the tokens, and one more than the number of spaces. */
  method Split(line: string) returns (parts: seq<string>, size: nat)
    ensures parts == Tokens(line) && size == Spaces(line) + 1 && |parts| <= size
  {
    var ptr, counter := line, 0;
    while ptr != ""
      invariant counter + Spaces(ptr) == Spaces(line)
      decreases |ptr|
    {
      counter := counter + One(ptr[0] == ' ');
      ptr := ptr[1..];
    }
    var buffer := line;
    parts := [];
    while buffer != ""
      invariant parts + Tokens(buffer) == Tokens(line)
      decreases |buffer|
    {
      if buffer[0] == ' ' {
        buffer := buffer[1..];
      } else {
        parts, buffer := parts + [buffer[..Word(buffer)]], buffer[Word(buffer)..];
      }
    }
    size := counter + 1;
    TokensFit(line);
  }

  /** `Undefined` stands for passing a missing token to the library. */
  datatype Command = Undefined | Invalid | Exit | Dump(address: u32, length: u32)

  /** The line has the form of a dump request up to a token that is missing. */
  predicate Missing(parts: seq<string>, size: nat) {
    || parts == []
    || (parts[0] == "d" && size == 5 &&
        (|parts| == 1 || (parts[1] == "-a" && (|parts| < 4 || (|parts| == 4 && parts[3] in ["-a", "-l"])))))
  }

  /** parse_input of the client; `strtol` and `atoi` are the library's. */
  method ParseCommand(line: string, strtol: string -> int, atoi: string -> int) returns (c: Command)
    ensures c.Undefined? <==> Missing(Tokens(line), Spaces(line) + 1)
    ensures c.Exit? <==> Tokens(line) != [] && Tokens(line)[0] == "exit"
    ensures c.Dump? <==> && |Tokens(line)| == 5 == Spaces(line) + 1
                         && Tokens(line)[0] == "d" && Tokens(line)[1] == "-a" && Tokens(line)[3] in ["-a", "-l"]
                         && 1 <= Asked(Tokens(line), strtol, atoi) <= MAXDATASIZE
    ensures c.Dump? ==> c == Dump(Wrap(strtol(Tokens(line)[2])), Asked(Tokens(line), strtol, atoi))
    ensures c.Dump? && Tokens(line)[3] == "-a" ==> Add32(c.address, c.length) == Wrap(strtol(Tokens(line)[4]))
    ensures c.Dump? && Tokens(line)[3] == "-l" ==> c.length == Wrap(atoi(Tokens(line)[4]))
  {
    var parts, size := Split(line);
    if |parts| <= 0 {
      return Undefined;
    } else if parts[0] == "exit" {
      return Exit;
    } else if parts[0] != "d" || size != 5 {
      return Invalid;
    } else if |parts| <= 1 {
      return Undefined;
    } else if parts[1] != "-a" {
      return Invalid;
    } else if |parts| <= 3 {
      return Undefined;
    } else if parts[3] != "-a" && parts[3] != "-l" {
      return Invalid;
    } else if |parts| <= 4 {
      return Undefined;
    }
    var address := Wrap(strtol(parts[2]));
    var length := if parts[3] == "-a" then Sub32(Wrap(strtol(parts[4])), address) else Wrap(atoi(parts[4]));
    return if length == 0 || length > MAXDATASIZE then Invalid else Dump(address, length);
  }

  /** The number of bytes asked for, as a 32-bit word: up to an end address, or a length. */
  ghost function Asked(parts: seq<string>, strtol: string -> int, atoi: string -> int): u32
    requires |parts| == 5
  {
    if parts[3] == "-a" then Sub32(Wrap(strtol(parts[4])), Wrap(strtol(parts[2]))) else Wrap(atoi(parts[4]))
  }

  // ----- The text between server and kernel module -----

  const DIGITS: string := "0123456789abcdef"

  function Power16(n: nat): nat { if n == 0 then 1 else 16 * Power16(n - 1) }

  /** The last `n` hexadecimal digits of `w`. */
  function Hex(w: nat, n: nat): (s: string)
    ensures |s| == n
  {
    if n == 0 then "" else Hex(w / 16, n - 1) + [DIGITS[w % 16]]
  }

  /** "%08x,%08x" */
  function RequestText(address: u32, length: u32): string { Hex(address, 8) + "," + Hex(length, 8) }

  function DigitValue(c: char): Option<nat> {
    if '0' <= c <= '9' then Some((c - '0') as nat)
    else if 'a' <= c <= 'f' then Some((c - 'a') as nat + 10)
    else if 'A' <= c <= 'F' then Some((c - 'A') as nat + 10)
    else None
  }

  /** What sscanf's "%08x" does to digits: `value` so far, at most `width` more; the value and the rest of the text. */
  function ScanHex(s: string, width: nat, value: nat): (nat, string) {
    if width > 0 && s != [] && DigitValue(s[0]).Some? then ScanHex(s[1..], width - 1, value * 16 + DigitValue(s[0]).value)
    else (value, s)
  }

  /** parse_input of the kernel module: both numbers, when both are there. */
  function ParseRequest(s: string): Option<(int, int)> {
    var (a, s1) := ScanHex(s, 8, 0);
    if |s1| == |s| || s1 == [] || s1[0] != ',' then None
    else
      var (b, s2) := ScanHex(s1[1..], 8, 0);
      if |s2| == |s1| - 1 then None else Some((Signed(Wrap(a)), Signed(Wrap(b))))
  }

  lemma DigitsScan(d: nat)
    requires d < 16
    ensures DigitValue(DIGITS[d]) == Some(d)
  {
  }

  lemma {:induction false} ScanSplit(s: string, t: string, width: nat, value: nat)
    requires |s| <= width && (forall i :: 0 <= i < |s| ==> DigitValue(s[i]).Some?)
    ensures var v := ScanHex(s, width, value).0;
            ScanHex(s + t, width, value) == ScanHex(t, width - |s|, v)
    decreases |s|
  {
    if s == [] {
      assert s + t == t;
    } else {
      assert (s + t)[1..] == s[1..] + t;
      ScanSplit(s[1..], t, width - 1, value * 16 + DigitValue(s[0]).value);
    }
  }

  lemma {:induction false} HexIsDigits(w: nat, n: nat)
    ensures forall i :: 0 <= i < n ==> DigitValue(Hex(w, n)[i]).Some?
    decreases n
  {
    if n > 0 {
      HexIsDigits(w / 16, n - 1);
      DigitsScan(w % 16);
    }
  }

  /** Scanning the digits of a number gives the number. */
  lemma {:induction false} HexScans(w: nat, n: nat, width: nat)
    requires w < Power16(n) && n <= width
    ensures ScanHex(Hex(w, n), width, 0) == (w, "")
    decreases n
  {
    if n > 0 {
      HexScans(w / 16, n - 1, width);
      HexIsDigits(w / 16, n - 1);
      ScanSplit(Hex(w / 16, n - 1), [DIGITS[w % 16]], width, 0);
      DigitsScan(w % 16);
    }
  }

  lemma ScanHexThen(w: nat, t: string)
    requires w < Power16(8) && (t == [] || DigitValue(t[0]) == None)
    ensures ScanHex(Hex(w, 8) + t, 8, 0) == (w, t)
  {
    HexScans(w, 8, 8);
    HexIsDigits(w, 8);
    ScanSplit(Hex(w, 8), t, 8, 0);
  }

  lemma Power16Is()
    ensures Power16(8) == TWO32
  {
    assert Power16(2) == 256 && Power16(4) == 65536;
    assert Power16(6) == 16777216;
  }

  /** The text parses back to the request, whose words the module reads as signed. */
  lemma RequestRoundTrip(address: u32, length: u32)
    ensures ParseRequest(RequestText(address, length)) == Some((Signed(address), Signed(length)))
  {
    Power16Is();
    assert Wrap(address) == address && Wrap(length) == length && DigitValue(',') == None;
    hide Hex, ScanHex, Power16, DigitValue, Signed, Wrap;
    var t := "," + Hex(length, 8);
    assert RequestText(address, length) == Hex(address, 8) + t;
    ScanHexThen(address, t);
    assert t[1..] == Hex(length, 8) + "";
    ScanHexThen(length, "");
  }

  /** Every request that the client accepts, for an address below 2^31, reaches the copy unchanged. */
  lemma DumpRoundTrip(c: Command)
    requires c.Dump? && 1 <= c.length <= MAXDATASIZE
    ensures ParseRequest(RequestText(c.address, c.length)) == Some((c.address as int, c.length as int)) <==> c.address < TWO31
  {
    RequestRoundTrip(c.address, c.length);
  }

  // ----- The copy -----

  /** How many bytes of a request are copied: no more than fit the buffer, and none from the last readable address on. */
  function Clipped(start: int, length: int, room: nat): nat {
    var n := if length < 0 then 0 else if length < room then length else room;
    if start >= LAST_READABLE_ADDRESS then 0
    else if start + n > LAST_READABLE_ADDRESS then LAST_READABLE_ADDRESS - start
    else n
  }

  /** The module's buffer has room for every request that the client accepts: the copy is whole exactly when it ends
      no later than the last readable address, where the module takes the address as signed. */
  lemma DumpCopied(c: Command)
    requires c.Dump? && 1 <= c.length <= MAXDATASIZE
    ensures var request := ParseRequest(RequestText(c.address, c.length));
            && request.Some?
            && (Clipped(request.value.0, request.value.1, SIZE) == c.length
                <==> Signed(c.address) + c.length <= LAST_READABLE_ADDRESS)
  {
    RequestRoundTrip(c.address, c.length);
  }

  /** copy_data_from_memory; `memory` is what physical addresses hold. */
  method CopyFromMemory(start: int, length: int, data: array<byte>, room: nat, memory: int -> byte) returns (count: nat)
    requires room <= data.Length
    modifies data
    ensures count == Clipped(start, length, room)
    ensures forall i :: 0 <= i < count ==> data[i] == memory(start + i)
    ensures forall i :: count <= i < data.Length ==> data[i] == old(data[i])
  {
    count := 0;
    while count < length && count < room
      invariant count <= room && count <= Clipped(start, length, room)
      invariant forall i :: 0 <= i < count ==> data[i] == memory(start + i)
      invariant forall i :: count <= i < data.Length ==> data[i] == old(data[i])
    {
      if LAST_READABLE_ADDRESS <= start + count {
        break;
      }
      data[count] := memory(start + count);
      count := count + 1;
    }
  }
}
