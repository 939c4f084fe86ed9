/** Parsing, generating and storing a fallback MAC address
    (device/huawei/mozart/macaddr/mac_addr_normalization.cpp). A byte is an int below 256; system
    calls answer from a list of results given to the caller. */
module MacAddress {
  import opened Options

  // ---- Text ----

  function HexValue(c: char): int {
    if '0' <= c <= '9' then c as int - '0' as int
    else if 'a' <= c <= 'f' then c as int - 'a' as int + 10
    else if 'A' <= c <= 'F' then c as int - 'A' as int + 10   // after tolower
    else -1
  }

  // "%02X", one digit.
  function HexDigit(n: int): char
    requires 0 <= n < 16
  {
    if n < 10 then ('0' as int + n) as char else ('A' as int + n - 10) as char
  }

  function ToUpper(c: char): char {
    if 'a' <= c <= 'z' then (c as int - 'a' as int + 'A' as int) as char else c
  }

  predicate IsAddress(a: seq<int>) {
    |a| == 6 && forall i :: 0 <= i < 6 ==> 0 <= a[i] < 256
  }

  // "%02X:%02X:%02X:%02X:%02X:%02X"
  function Format(a: seq<int>): (text: string)
    requires IsAddress(a)
    ensures |text| == 17
  {
    seq(17, i requires 0 <= i < 17 =>
      if i % 3 == 2 then ':' else HexDigit(if i % 3 == 0 then a[i / 3] / 16 else a[i / 3] % 16))
  }

  predicate PairAt(text: string, index: nat)
    requires |text| == 17 && index < 6
  {
    && HexValue(text[3 * index]) >= 0 && HexValue(text[3 * index + 1]) >= 0
    && (index < 5 ==> text[3 * index + 2] == ':')
  }

  predicate WellFormed(text: string) {
    |text| == 17 && forall i :: 0 <= i < 6 ==> PairAt(text, i)
  }

  function ByteAt(text: string, index: nat): int
    requires |text| == 17 && index < 6
  {
    HexValue(text[3 * index]) * 16 + HexValue(text[3 * index + 1])
  }

  function Bytes(text: string): (a: seq<int>)
    requires |text| == 17
    ensures |a| == 6
  {
    seq(6, i requires 0 <= i < 6 => ByteAt(text, i))
  }

  // Neither all zeros nor all ones, and not a group address.
  predicate Usable(a: seq<int>)
    requires |a| == 6
  {
    && (exists i :: 0 <= i < 6 && a[i] != 0)
    && (exists i :: 0 <= i < 6 && a[i] != 0xff)
    && a[0] % 2 == 0
  }

  predicate Accepts(text: string) {
    WellFormed(text) && Usable(Bytes(text))
  }

  method ParseMac(text: string, address: array<int>) returns (ok: bool)
    requires address.Length == 6
    modifies address
    ensures ok == Accepts(text)
    ensures ok ==> address[..] == Bytes(text) && IsAddress(address[..])
  {
    if |text| != 17 {
      return false;
    }
    for index := 0 to 6
      invariant forall i :: 0 <= i < index ==> PairAt(text, i) && address[i] == ByteAt(text, i)
    {
      var offset := index * 3;
      var high, low := HexValue(text[offset]), HexValue(text[offset + 1]);
      if high < 0 || low < 0 || (index < 5 && text[offset + 2] != ':') {
        assert !PairAt(text, index);
        return false;
      }
      address[index] := high * 16 + low;
    }
    assert address[..] == Bytes(text);
    var allZero, allOnes := true, true;
    for index := 0 to 6
      invariant allZero <==> forall i :: 0 <= i < index ==> address[i] == 0
      invariant allOnes <==> forall i :: 0 <= i < index ==> address[i] == 0xff
    {
      allZero := allZero && address[index] == 0;
      allOnes := allOnes && address[index] == 0xff;
    }
    ok := !allZero && !allOnes && address[0] % 2 == 0;
  }

  // Printing and parsing are inverse to each other: every address comes back from its text, and
  // every well-formed text comes back in upper case.
  lemma ParsePrinted(a: seq<int>)
    requires IsAddress(a)
    ensures WellFormed(Format(a)) && Bytes(Format(a)) == a
  {
    forall i | 0 <= i < 6
      ensures PairAt(Format(a), i) && ByteAt(Format(a), i) == a[i]
    {
      PrintedPair(a, i);
    }
  }

  lemma PrintedPair(a: seq<int>, i: nat)
    requires IsAddress(a) && i < 6
    ensures PairAt(Format(a), i) && ByteAt(Format(a), i) == a[i]
  {
    var text := Format(a);
    assert text[3 * i] == HexDigit(a[i] / 16) && text[3 * i + 1] == HexDigit(a[i] % 16);
    HexDigitValue(a[i] / 16);
    HexDigitValue(a[i] % 16);
  }

  lemma HexDigitValue(n: int)
    requires 0 <= n < 16
    ensures HexValue(HexDigit(n)) == n
  {
  }

  lemma HexValueDigit(c: char)
    requires HexValue(c) >= 0
    ensures HexValue(c) < 16 && HexDigit(HexValue(c)) == ToUpper(c)
  {
  }

  // The digits of either case, and nothing else, have a value; it is the place in the list.
  lemma HexValueIsPlace(c: char)
    ensures HexValue(c) >= 0 <==> c in "0123456789ABCDEFabcdef"
    ensures HexValue(c) == HexValue(ToUpper(c))
    ensures HexValue(c) >= 0 ==> HexValue(c) < 16 && "0123456789ABCDEF"[HexValue(c)] == ToUpper(c)
  {
  }

  function Upper(text: string): string {
    seq(|text|, i requires 0 <= i < |text| => ToUpper(text[i]))
  }

  // The well-formed texts are the printed addresses, in either case.
  lemma WellFormedIffPrinted(text: string)
    ensures WellFormed(text) <==> exists a :: IsAddress(a) && Format(a) == Upper(text)
  {
    if WellFormed(text) {
      PrintParsed(text);
    } else if a :| IsAddress(a) && Format(a) == Upper(text) {
      ParsePrinted(a);
      UpperIsWellFormed(text);
    }
  }

  lemma UpperIsWellFormed(text: string)
    requires WellFormed(Upper(text))
    ensures WellFormed(text)
  {
    forall i | 0 <= i < 6
      ensures PairAt(text, i)
    {
      assert PairAt(Upper(text), i);
      HexValueIsPlace(text[3 * i]);
      HexValueIsPlace(text[3 * i + 1]);
    }
  }

  // An address is refused if it is all zeros, the broadcast address, or has the group bit set.
  lemma UsableIff(a: seq<int>)
    requires IsAddress(a)
    ensures Usable(a) <==> a != [0, 0, 0, 0, 0, 0] && a != [255, 255, 255, 255, 255, 255]
                           && (a[0] as bv8) & 1 == 0
  {
    GroupBit(a[0] as bv8);
  }

  lemma GroupBit(b: bv8)
    ensures b & 1 == 0 <==> (b as int) % 2 == 0
  {
  }

  lemma PrintParsed(text: string)
    requires WellFormed(text)
    ensures IsAddress(Bytes(text))
    ensures Format(Bytes(text)) == Upper(text)
  {
    forall i | 0 <= i < 6
      ensures 0 <= Bytes(text)[i] < 256
      ensures Bytes(text)[i] / 16 == HexValue(text[3 * i])
      ensures Bytes(text)[i] % 16 == HexValue(text[3 * i + 1])
    {
      assert PairAt(text, i);
      HexValueDigit(text[3 * i]);
      HexValueDigit(text[3 * i + 1]);
    }
    forall i | 0 <= i < 17
      ensures Format(Bytes(text))[i] == ToUpper(text[i])
    {
      assert PairAt(text, i / 3);
      if i % 3 == 0 {
        assert text[i] == text[3 * (i / 3)];
        HexValueDigit(text[i]);
      } else if i % 3 == 1 {
        assert text[i] == text[3 * (i / 3) + 1];
        HexValueDigit(text[i]);
      }
    }
  }

  // ---- Generation ----

  // (b & 0xfe) | 0x02
  function FirstByte(b: int): int {
    b / 4 * 4 + 2
  }

  lemma FirstByteIsMasking(b: bv8)
    ensures FirstByte(b as int) == ((b & 0xfe) | 0x02) as int
  {
  }

  function Generated(random: seq<int>): seq<int>
    requires IsAddress(random)
  {
    random[0 := FirstByte(random[0])]
  }

  // Locally administered (second bit set) and unicast (first bit clear), all other bits random;
  // such an address is always accepted, and comes back from its text.
  lemma GeneratedIsAccepted(random: seq<int>)
    requires IsAddress(random)
    ensures var a := Generated(random);
            && IsAddress(a) && a[0] % 4 == 2 && a[0] / 4 == random[0] / 4 && a[1..] == random[1..]
            && Accepts(Format(a)) && Bytes(Format(a)) == a
  {
    var a := Generated(random);
    assert IsAddress(a);
    ParsePrinted(a);
    FirstByteIsUsable(random[0]);
    assert Usable(a);
  }

  lemma FirstByteIsUsable(b: int)
    requires 0 <= b < 256
    ensures var f := FirstByte(b);
            0 < f < 255 && f % 2 == 0 && f % 4 == 2 && f / 4 == b / 4
  {
  }

  // ---- System calls ----

  // One answer of read() or write(): interrupted, failed, or so many bytes.
  datatype Read = ReadInterrupted | ReadFailed | ReadBytes(data: seq<int>)
  datatype Write = WriteInterrupted | WriteFailed | Wrote(count: nat)

  // What the reads bring before one fails or reports the end of the file.
  function Arriving(results: seq<Read>): seq<int> {
    if results == [] || results[0] == ReadFailed || results[0] == ReadBytes([]) then []
    else (if results[0].ReadBytes? then results[0].data else []) + Arriving(results[1..])
  }

  // All bytes of some results, wherever they are.
  function AllBytes(results: seq<Read>): seq<int> {
    if results == [] then []
    else
      AllBytes(results[..|results| - 1])
      + if results[|results| - 1].ReadBytes? then results[|results| - 1].data else []
  }

  predicate Ends(result: Read) { result == ReadFailed || result == ReadBytes([]) }

  // What arrives is all that comes before the first failure or end; interruptions do not count.
  lemma {:induction false} ArrivingIsUntilEnd(results: seq<Read>, n: nat)
    requires n <= |results| && (n < |results| ==> Ends(results[n]))
    requires forall i :: 0 <= i < n ==> !Ends(results[i])
    ensures Arriving(results) == AllBytes(results[..n])
  {
    if n > 0 {
      ArrivingIsUntilEnd(results[1..], n - 1);
      FirstBytes(results[..n]);
      assert results[..n][1..] == results[1..][..n - 1];
    }
  }

  lemma {:induction false} FirstBytes(results: seq<Read>)
    requires results != []
    ensures AllBytes(results) == (if results[0].ReadBytes? then results[0].data else []) + AllBytes(results[1..])
  {
    var n := |results| - 1;
    if n > 0 {
      FirstBytes(results[..n]);
      assert results[..n][1..] == results[1..][..n - 1];
    }
  }

  // Fills the array from as many partial reads as it takes: exactly when enough bytes arrive,
  // and then with the first of them in order. Results that run out count as a failure.
  method ReadFully(results: seq<Read>, address: array<int>) returns (ok: bool)
    modifies address
    ensures ok == (address.Length <= |Arriving(results)|)
    ensures ok ==> address[..] == Arriving(results)[..address.Length]
  {
    var size, n := address.Length, 0;
    ghost var got, rest := [], Arriving(results);
    while size > 0
      invariant 0 <= size <= address.Length && n <= |results|
      invariant |got| == address.Length - size && address[..|got|] == got
      invariant Arriving(results) == got + rest && (size > 0 ==> rest == Arriving(results[n..]))
      decreases |results| - n
    {
      if n == |results| {
        return false;
      }
      var result := results[n];
      NextArrives(results, n);
      n := n + 1;
      if result == ReadInterrupted {
        continue;
      }
      if result == ReadFailed || result.data == [] {
        return false;
      }
      var count := TakeBytes(address, address.Length - size, result.data);
      SplitData(got, result.data, Arriving(results[n..]), count);
      got, rest := got + result.data[..count], result.data[count..] + Arriving(results[n..]);
      size := size - count;
    }
    assert address[..] == got;
    ok := true;
  }

  // One read(): as many bytes as there are and as fit.
  method TakeBytes(address: array<int>, at: nat, data: seq<int>) returns (count: nat)
    requires at <= address.Length
    modifies address
    ensures count == if |data| <= address.Length - at then |data| else address.Length - at
    ensures address[..at + count] == old(address[..at]) + data[..count]
  {
    count := if |data| <= address.Length - at then |data| else address.Length - at;
    CopyIn(address, at, data[..count]);
  }

  lemma NextArrives(results: seq<Read>, n: nat)
    requires n < |results|
    ensures Arriving(results[n..])
            == if Ends(results[n]) then []
               else (if results[n].ReadBytes? then results[n].data else []) + Arriving(results[n + 1..])
  {
    assert results[n..][1..] == results[n + 1..];
  }

  lemma SplitData(got: seq<int>, data: seq<int>, rest: seq<int>, count: nat)
    requires count <= |data|
    ensures got + (data + rest) == (got + data[..count]) + (data[count..] + rest)
    ensures count == |data| ==> data[count..] + rest == rest
  {
  }

  method CopyIn(address: array<int>, at: nat, data: seq<int>)
    requires at + |data| <= address.Length
    modifies address
    ensures address[..at + |data|] == old(address[..at]) + data
  {
    for k := 0 to |data|
      invariant address[..at + k] == old(address[..at]) + data[..k]
    {
      address[at + k] := data[k];
    }
  }

  // ---- Storing ----

  function Accumulated(results: seq<Write>): nat {
    if results == [] || results[0] == WriteFailed then 0
    else (if results[0].Wrote? then results[0].count else 0) + Accumulated(results[1..])
  }

  // So much is written as the writes before the first failure take together.
  function Total(results: seq<Write>): nat {
    if results == [] then 0
    else
      Total(results[..|results| - 1]) + if results[|results| - 1].Wrote? then results[|results| - 1].count else 0
  }

  lemma {:induction false} AccumulatedIsUntilFailure(results: seq<Write>, n: nat)
    requires n <= |results| && (n < |results| ==> results[n] == WriteFailed)
    requires forall i :: 0 <= i < n ==> results[i] != WriteFailed
    ensures Accumulated(results) == Total(results[..n])
  {
    if n > 0 {
      AccumulatedIsUntilFailure(results[1..], n - 1);
      FirstWrite(results[..n]);
      assert results[..n][1..] == results[1..][..n - 1];
    }
  }

  lemma {:induction false} FirstWrite(results: seq<Write>)
    requires results != []
    ensures Total(results) == (if results[0].Wrote? then results[0].count else 0) + Total(results[1..])
  {
    var n := |results| - 1;
    if n > 0 {
      FirstWrite(results[..n]);
      assert results[..n][1..] == results[1..][..n - 1];
    }
  }

  type Files = map<string, string>

  function ContentOf(files: Files, path: string): Option<string> {
    if path in files then Some(files[path]) else None
  }

  // How the calls of one StoreMac turn out; `cleans` is the unlink after a failure.
  datatype Outcomes = Outcomes(
    random: seq<Read>, unlinks: bool, creates: bool, owned: bool, writes: seq<Write>,
    synced: bool, closed: bool, renames: bool, cleans: bool)

  // The text StoreMac writes.
  function AddressText(o: Outcomes): string
    requires 6 <= |Arriving(o.random)| && IsAddress(Arriving(o.random)[..6])
  {
    Format(Generated(Arriving(o.random)[..6]))
  }

  predicate AreBytes(data: seq<int>) {
    forall i :: 0 <= i < |data| ==> 0 <= data[i] < 256
  }

  class Disk {
    var files: Files
    ghost var history: seq<Files>     // every state the directory has been in

    ghost predicate Valid()
      reads this
    {
      history != [] && history[|history| - 1] == files
    }

    // Since `past` and `before`, no file but `path` has been touched.
    ghost predicate OnlyTouched(past: seq<Files>, before: Files, path: string)
      reads this
    {
      && Valid() && past <= history
      && files - {path} == before - {path}
      && forall k :: |past| <= k < |history| ==> history[k] - {path} == before - {path}
    }

    constructor (files: Files)
      ensures this.files == files && Valid()
    {
      this.files := files;
      history := [files];
    }

    method Change(files: Files)
      requires Valid()
      modifies this
      ensures Valid() && this.files == files && history == old(history) + [files]
    {
      this.files := files;
      history := history + [files];
    }

    // Appends `text` to the empty file by as many writes as it takes.
    method WriteFully(path: string, text: string, results: seq<Write>) returns (ok: bool)
      requires Valid() && path in files && files[path] == ""
      modifies this
      ensures ok == (|text| <= Accumulated(results))
      ensures path in files && (ok ==> files[path] == text)
      ensures OnlyTouched(old(history), old(files), path)
    {
      var size, n := |text|, 0;
      while size > 0
        invariant 0 <= size <= |text| && n <= |results|
        invariant path in files && files[path] == text[..|text| - size]
        invariant OnlyTouched(old(history), old(files), path)
        invariant if size > 0 then Accumulated(results) == |text| - size + Accumulated(results[n..])
                  else |text| <= Accumulated(results)
        decreases |results| - n
      {
        if n == |results| {
          return false;
        }
        var result := results[n];
        assert results[n..][1..] == results[n + 1..];
        n := n + 1;
        if result == WriteInterrupted {
          continue;
        }
        if result == WriteFailed {
          return false;
        }
        var count := if result.count <= size then result.count else size;
        size := size - count;
        Change(files[path := text[..|text| - size]]);
      }
      ok := true;
    }

    // Replaces a stale temporary file by an empty one.
    method CreateTemporary(temporary: string, o: Outcomes) returns (ok: bool)
      requires Valid()
      modifies this
      ensures OnlyTouched(old(history), old(files), temporary)
      ensures ok <==> (temporary in old(files) ==> o.unlinks) && o.creates
      ensures ok ==> temporary in files && files[temporary] == ""
    {
      if temporary in files {
        if !o.unlinks {
          return false;
        }
        Change(files - {temporary});
      }
      ok := o.creates;
      if ok {
        Change(files[temporary := ""]);
      }
    }

    // Up to the close of the temporary file; touches no other file.
    method WriteTemporary(temporary: string, text: string, o: Outcomes) returns (ok: bool)
      requires Valid()
      modifies this
      ensures OnlyTouched(old(history), old(files), temporary)
      ensures ok <==>
                && (temporary in old(files) ==> o.unlinks)
                && o.creates && o.owned && |text| <= Accumulated(o.writes) && o.synced && o.closed
      ensures ok ==> ContentOf(files, temporary) == Some(text)
    {
      ok := CreateTemporary(temporary, o);
      if !ok {
        return;
      }
      ok := o.owned;
      if ok {
        ok := WriteFully(temporary, text, o.writes);
      }
      ok := ok && o.synced && o.closed;
      if !ok && o.cleans {
        Change(files - {temporary});
      }
    }

    // At every moment, a crash included, `path` holds what it held before or the whole new
    // address. StoreMac succeeds exactly when every call it makes does, and a failure leaves
    // the target as it was.
    method StoreMac(path: string, o: Outcomes) returns (ok: bool)
      requires Valid() && AreBytes(Arriving(o.random))
      modifies this
      ensures Valid() && old(history) <= history
      ensures forall k :: |old(history)| <= k < |history| ==>
                || ContentOf(history[k], path) == ContentOf(old(files), path)
                || (6 <= |Arriving(o.random)| && ContentOf(history[k], path) == Some(AddressText(o)))
      ensures ok <==>
                && 6 <= |Arriving(o.random)| && (path + ".tmp" in old(files) ==> o.unlinks)
                && o.creates && o.owned && 17 <= Accumulated(o.writes) && o.synced && o.closed && o.renames
      ensures ok ==> ContentOf(files, path) == Some(AddressText(o)) && path + ".tmp" !in files
      ensures !ok ==> ContentOf(files, path) == ContentOf(old(files), path)
    {
      var address := new int[6];
      ok := ReadFully(o.random, address);
      if !ok {
        return;
      }
      address[0] := FirstByte(address[0]);
      assert address[..] == Generated(Arriving(o.random)[..6]);
      var temporary := path + ".tmp";
      ok := WriteTemporary(temporary, Format(address[..]), o);
      forall k | |old(history)| <= k < |history|
        ensures ContentOf(history[k], path) == ContentOf(old(files), path)
      {
        OthersKept(history[k], old(files), temporary, path);
      }
      OthersKept(files, old(files), temporary, path);
      if !ok {
        return;
      }
      if !o.renames {
        if o.cleans {
          Change(files - {temporary});
        }
        return false;
      }
      Change((files - {temporary})[path := files[temporary]]);
    }
  }

  lemma OthersKept(a: Files, b: Files, changed: string, other: string)
    requires a - {changed} == b - {changed} && other != changed
    ensures ContentOf(a, other) == ContentOf(b, other)
  {
    assert other in a <==> other in a - {changed};
    assert other in b <==> other in b - {changed};
    if other in a {
      assert a[other] == (a - {changed})[other] && b[other] == (b - {changed})[other];
    }
  }

  // ---- Finding a stored address again ----

  predicate IsSpace(c: char) {
    c == ' ' || c == '\t' || c == '\n' || c == '\r' || c as int == 0x0b || c as int == 0x0c
  }

  function TrimRight(text: string): string {
    if text != [] && IsSpace(text[|text| - 1]) then TrimRight(text[..|text| - 1]) else text
  }

  // HasValidMac: what one read of at most 32 characters finds in the file.
  predicate HasValidMac(content: Option<string>) {
    && content.Some? && content.value != []
    && Accepts(TrimRight(if |content.value| <= 32 then content.value else content.value[..32]))
  }

  // What StoreMac stores is found again, so the next start keeps it; white space behind it, up
  // to the 32 characters that are read, does no harm.
  lemma {:induction false} StoredAddressIsFound(random: seq<int>, space: string)
    requires IsAddress(random) && |space| <= 15 && forall c :: c in space ==> IsSpace(c)
    ensures HasValidMac(Some(Format(Generated(random)) + space))
  {
    GeneratedIsAccepted(random);
    var text := Format(Generated(random));
    assert PairAt(text, 5);
    TrimDropsSpace(text, space);
  }

  // The six white-space characters of the C locale.
  lemma SpaceCharacters(c: char)
    ensures IsSpace(c) <==> c as int == 32 || 9 <= c as int <= 13
  {
  }

  // Whatever is found valid is a well-formed usable address followed by white space, in the first
  // 32 characters.
  lemma FoundIsUsable(content: string)
    requires HasValidMac(Some(content))
    ensures 17 <= |content| && WellFormed(content[..17]) && Usable(Bytes(content[..17]))
    ensures forall i :: 17 <= i < |content| && i < 32 ==> IsSpace(content[i])
  {
    var read := if |content| <= 32 then content else content[..32];
    TrimIsPrefix(read);
    assert content[..17] == TrimRight(read);
  }

  lemma {:induction false} TrimIsPrefix(text: string)
    ensures var trimmed := TrimRight(text);
            && trimmed <= text
            && forall i :: |trimmed| <= i < |text| ==> IsSpace(text[i])
  {
    if text != [] && IsSpace(text[|text| - 1]) { TrimIsPrefix(text[..|text| - 1]); }
  }

  lemma {:induction false} TrimDropsSpace(text: string, space: string)
    requires text != [] && !IsSpace(text[|text| - 1])
    requires forall c :: c in space ==> IsSpace(c)
    ensures TrimRight(text + space) == text
  {
    if space != [] {
      assert (text + space)[..|text + space| - 1] == text + space[..|space| - 1];
      TrimDropsSpace(text, space[..|space| - 1]);
    } else {
      assert text + space == text;
    }
  }
}
