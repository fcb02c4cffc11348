/** The archive layout of Domain/PiCross/GameDataArchive.cs: where library
    entries and player profiles live inside the game data archive, how their
    entry names are recognised again, and the line format of a player profile
    (a count line, then one "uid ticks" line per best time).

    The zip archive and its streams are not part of this model: an archive is
    the list of its entry names, and a profile is the list of lines its
    stream reader would return. */
module GameDataArchives {
  import opened Wrappers
  import opened InMemoryDatabases

  // ---------------------------------------------------------------- numbers as text

  predicate IsDigit(c: char)
  {
    '0' <= c <= '9'
  }

  predicate AllDigits(s: string)
  {
    forall i :: 0 <= i < |s| ==> IsDigit(s[i])
  }

  /** The value of a string of decimal digits. */
  function DigitsValue(s: string): nat
    requires AllDigits(s)
  {
    if s == [] then 0 else DigitsValue(s[..|s| - 1]) * 10 + (s[|s| - 1] as int - '0' as int)
  }

  /** `n.ToString()` for n >= 0: the shortest decimal digit string. */
  function NatToDecimal(n: nat): (s: string)
    ensures |s| >= 1 && AllDigits(s)
  {
    if n < 10 then [('0' as int + n) as char]
    else NatToDecimal(n / 10) + [('0' as int + n % 10) as char]
  }

  /** `n.ToString()`: a minus sign before the digits of a negative number. */
  function IntToDecimal(n: int): (s: string)
    ensures |s| >= 1 && ' ' !in s
  {
    if n < 0 then "-" + NatToDecimal(-n) else NatToDecimal(n)
  }

  /** Decimal digits read back give the number they were written from. */
  lemma {:induction false} NatToDecimalRoundTrip(n: nat)
    ensures DigitsValue(NatToDecimal(n)) == n
  {
    if n >= 10 {
      NatToDecimalRoundTrip(n / 10);
      var s := NatToDecimal(n);
      assert s[..|s| - 1] == NatToDecimal(n / 10);
    }
  }

  /** k copies of c. */
  function Repeat(c: char, k: nat): (s: string)
    ensures |s| == k && forall i :: 0 <= i < k ==> s[i] == c
  {
    if k == 0 then [] else Repeat(c, k - 1) + [c]
  }

  /** `s.PadLeft(width, c)`: c repeated in front of s up to `width` characters. */
  function PadLeft(s: string, width: nat, c: char): (r: string)
    ensures |r| == if |s| >= width then |s| else width
    ensures r[|r| - |s|..] == s
    ensures forall i :: 0 <= i < |r| - |s| ==> r[i] == c
  {
    if |s| >= width then s else Repeat(c, width - |s|) + s
  }

  /** Leading zeros do not change the value of a digit string. */
  lemma {:induction false} LeadingZeros(k: nat, s: string)
    requires AllDigits(s)
    ensures AllDigits(Repeat('0', k) + s) && DigitsValue(Repeat('0', k) + s) == DigitsValue(s)
  {
    var z := Repeat('0', k);
    if s == [] {
      assert z + s == z;
      ZerosValue(k);
    } else {
      LeadingZeros(k, s[..|s| - 1]);
      assert (z + s)[..|z + s| - 1] == z + s[..|s| - 1];
    }
  }

  lemma {:induction false} ZerosValue(k: nat)
    ensures AllDigits(Repeat('0', k)) && DigitsValue(Repeat('0', k)) == 0
  {
    if k > 0 {
      ZerosValue(k - 1);
      assert Repeat('0', k)[..k - 1] == Repeat('0', k - 1);
    }
  }

  /** The white space `int.Parse` skips around a number. */
  predicate IsParseWhite(c: char)
  {
    '\t' <= c <= '\r' || c == ' '
  }

  function TrimStart(s: string): string
  {
    if s != [] && IsParseWhite(s[0]) then TrimStart(s[1..]) else s
  }

  function TrimEnd(s: string): string
  {
    if s != [] && IsParseWhite(s[|s| - 1]) then TrimEnd(s[..|s| - 1]) else s
  }

  /** The NUL characters the parser accepts after a number and its white space. */
  function TrimNuls(s: string): (t: string)
    ensures |t| <= |s| && t == s[..|t|]
    ensures forall i :: |t| <= i < |s| ==> s[i] == '\0'
    ensures t == [] || t[|t| - 1] != '\0'
  {
    if s != [] && s[|s| - 1] == '\0' then TrimNuls(s[..|s| - 1]) else s
  }

  /** `int.Parse(s)` / `long.Parse(s)`: white space around, an optional sign, at
      least one decimal digit, then any number of NUL characters; anything else
      is a format error. */
  function ParseInt(s: string): (r: Result<int, Error>)
    ensures r.Failure? ==> r.error == BadFormat
  {
    var t := TrimEnd(TrimStart(TrimNuls(s)));
    var negative := |t| > 0 && t[0] == '-';
    var digits := if |t| > 0 && (t[0] == '-' || t[0] == '+') then t[1..] else t;
    if |digits| == 0 || !AllDigits(digits) then Failure(BadFormat)
    else
      var value: int := DigitsValue(digits);
      if negative then Success(-value) else Success(value)
  }

  /** Trailing NUL characters do not change what a text parses to. */
  lemma {:induction false} ParseIntIgnoresTrailingNuls(s: string, k: nat)
    ensures ParseInt(s + Repeat('\0', k)) == ParseInt(s)
  {
    TrimNulsAppend(s, k);
  }

  lemma {:induction false} TrimNulsAppend(s: string, k: nat)
    ensures TrimNuls(s + Repeat('\0', k)) == TrimNuls(s)
  {
    if k > 0 {
      var z := Repeat('\0', k);
      assert (s + z)[..|s + z| - 1] == s + Repeat('\0', k - 1);
      TrimNulsAppend(s, k - 1);
    } else {
      assert s + Repeat('\0', k) == s;
    }
  }

  /** Every number reads back from its decimal text. */
  lemma ParseIntRoundTrip(n: int)
    ensures ParseInt(IntToDecimal(n)) == Success(n)
  {
    var s := IntToDecimal(n);
    assert TrimNuls(s) == s;
    if n < 0 {
      NatToDecimalRoundTrip(-n);
      assert s[1..] == NatToDecimal(-n);
      assert TrimEnd(s) == s;
    } else {
      NatToDecimalRoundTrip(n);
      assert TrimEnd(s) == s;
    }
  }

  /** `s.Split(sep)`: the pieces between the separators, at least one. */
  function Split(s: string, sep: char): (parts: seq<string>)
    ensures |parts| >= 1
  {
    if s == [] then [""]
    else
      var rest := Split(s[1..], sep);
      if s[0] == sep then [""] + rest else [[s[0]] + rest[0]] + rest[1..]
  }

  /** A string without the separator is one piece; one separator in front of
      more text starts a new piece. */
  lemma {:induction false} SplitAtSeparator(a: string, sep: char, b: string)
    requires sep !in a
    ensures Split(a + [sep] + b, sep) == [a] + Split(b, sep)
    ensures Split(a, sep) == [a]
  {
    if a != [] {
      SplitAtSeparator(a[1..], sep, b);
      assert (a + [sep] + b)[1..] == a[1..] + [sep] + b;
      assert [a[0]] + a[1..] == a;
    } else {
      assert [] + [sep] + b == [sep] + b;
      assert ([sep] + b)[1..] == b;
    }
  }

  // ---------------------------------------------------------------- entry names

  const LibraryEntryPrefix: string := "library/entry"
  const PlayerProfilePrefix: string := "players/"
  const TextSuffix: string := ".txt"

  /** `GetLibraryEntryPath(id)`: the id's decimal text padded with zeros to five characters. */
  function GetLibraryEntryPath(id: int): (path: string)
  {
    LibraryEntryPrefix + PadLeft(IntToDecimal(id), 5, '0') + TextSuffix
  }

  /** `GetPlayerProfilePath(playerName)`. */
  function GetPlayerProfilePath(playerName: string): (path: string)
  {
    PlayerProfilePrefix + playerName + TextSuffix
  }

  /** What a .NET `$` anchor sees: the name without one final line break. */
  function WithoutFinalNewline(s: string): string
  {
    if |s| > 0 && s[|s| - 1] == '\n' then s[..|s| - 1] else s
  }

  /** The text between a prefix and a suffix, when the name has both, not overlapping. */
  function Between(s: string, prefix: string, suffix: string): (middle: Option<string>)
    ensures middle.Some? ==> s == prefix + middle.value + suffix
  {
    if |s| >= |prefix| + |suffix| && s[..|prefix|] == prefix && s[|s| - |suffix|..] == suffix then
      var m := s[|prefix|..|s| - |suffix|];
      assert s == prefix + m + suffix;
      Some(m)
    else
      None
  }

  /** A name made of the prefix, some text and the suffix yields that text. */
  lemma BetweenOf(prefix: string, m: string, suffix: string)
    ensures Between(prefix + m + suffix, prefix, suffix) == Some(m)
  {
    var s := prefix + m + suffix;
    assert s[..|prefix|] == prefix && s[|s| - |suffix|..] == suffix;
    assert s[|prefix|..|s| - |suffix|] == m;
  }

  /** `ExtractEntryID(filename)`, the regex `^library/entry(\d+)\.txt$`: the value
      of the digits, or nothing for a name of another shape. */
  function ExtractEntryID(filename: string): (id: Option<int>)
    ensures id.Some? ==> id.value >= 0
  {
    match Between(WithoutFinalNewline(filename), LibraryEntryPrefix, TextSuffix)
    case Some(digits) => if |digits| > 0 && AllDigits(digits) then Some(DigitsValue(digits) as int) else None
    case None => None
  }

  /** `ExtractPlayerName(filename)`, the regex `^players/(.*)\.txt$`: the text
      between the prefix and the suffix, which `.` keeps free of line breaks. */
  function ExtractPlayerName(filename: string): (name: Option<string>)
    ensures name.Some? ==> '\n' !in name.value
  {
    match Between(WithoutFinalNewline(filename), PlayerProfilePrefix, TextSuffix)
    case Some(middle) => if '\n' in middle then None else Some(middle)
    case None => None
  }

  /** A library entry's path names it again, for every UID that is not negative;
      a negative UID's path ("000-5") is not recognised at all. */
  lemma EntryPathRoundTrip(id: int)
    ensures ExtractEntryID(GetLibraryEntryPath(id)) == if id >= 0 then Some(id) else None
  {
    var padded := PadLeft(IntToDecimal(id), 5, '0');
    EntryNameOf(padded);
    PaddedDecimal(id);
  }

  /** A name made of the library prefix, some text and the suffix is recognised
      exactly when that text is a non-empty run of digits. */
  lemma EntryNameOf(m: string)
    ensures ExtractEntryID(LibraryEntryPrefix + m + TextSuffix) ==
              if |m| > 0 && AllDigits(m) then Some(DigitsValue(m) as int) else None
  {
    var path := LibraryEntryPrefix + m + TextSuffix;
    assert path[|path| - 1] == 't';
    assert WithoutFinalNewline(path) == path;
    BetweenOf(LibraryEntryPrefix, m, TextSuffix);
  }

  /** A UID's decimal text padded with zeros is all digits exactly when the UID
      is not negative, and then it reads back as the UID. */
  lemma PaddedDecimal(id: int)
    ensures var padded := PadLeft(IntToDecimal(id), 5, '0');
            |padded| > 0 && (AllDigits(padded) <==> id >= 0) && (id >= 0 ==> DigitsValue(padded) == id)
  {
    var text := IntToDecimal(id);
    var padded := PadLeft(text, 5, '0');
    var k := |padded| - |text|;
    assert padded == Repeat('0', k) + text;
    if id >= 0 {
      NatToDecimalRoundTrip(id);
      LeadingZeros(k, text);
    } else {
      assert padded[k] == '-';
    }
  }

  /** A player's path names the player again exactly when the name has no line break. */
  lemma PlayerPathRoundTrip(playerName: string)
    ensures ExtractPlayerName(GetPlayerProfilePath(playerName)) == if '\n' in playerName then None else Some(playerName)
  {
    var path := GetPlayerProfilePath(playerName);
    assert path[|path| - 1] == 't';
    assert WithoutFinalNewline(path) == path;
    BetweenOf(PlayerProfilePrefix, playerName, TextSuffix);
  }

  /** A recognised player entry is that player's path, perhaps with one line break after it. */
  lemma PlayerNameShape(filename: string)
    requires ExtractPlayerName(filename).Some?
    ensures var name := ExtractPlayerName(filename).value;
            filename == GetPlayerProfilePath(name) || filename == GetPlayerProfilePath(name) + "\n"
  {
    if |filename| > 0 && filename[|filename| - 1] == '\n' {
      assert filename == WithoutFinalNewline(filename) + "\n";
    }
  }

  /** A player's path is not a library entry name. */
  lemma ProfileIsNoLibraryEntry(playerName: string)
    ensures ExtractEntryID(GetPlayerProfilePath(playerName)).None?
  {
    var path := GetPlayerProfilePath(playerName);
    assert path[|path| - 1] == 't';
    assert WithoutFinalNewline(path) == path;
    assert path[0] == 'p';
    if |path| >= |LibraryEntryPrefix| {
      assert path[..|LibraryEntryPrefix|][0] != LibraryEntryPrefix[0];
    }
  }

  /** A library entry's path is not a player name. */
  lemma LibraryEntryIsNoProfile(id: int)
    ensures ExtractPlayerName(GetLibraryEntryPath(id)).None?
  {
    var path := GetLibraryEntryPath(id);
    assert path[|path| - 1] == 't';
    assert WithoutFinalNewline(path) == path;
    assert path[0] == 'l';
    if |path| >= |PlayerProfilePrefix| {
      assert path[..|PlayerProfilePrefix|][0] != PlayerProfilePrefix[0];
    }
  }

  /** The archive's entries whose names `extract` recognises, in archive order,
      as what it extracts from them; the other entries are skipped. */
  function Recognised<T>(entryNames: seq<string>, extract: string -> Option<T>): (found: seq<T>)
    ensures |found| <= |entryNames|
  {
    if entryNames == [] then [] else Found(extract(entryNames[0])) + Recognised(entryNames[1..], extract)
  }

  /** What one recognised entry contributes: its value, or nothing. */
  function Found<T>(x: Option<T>): (found: seq<T>)
    ensures |found| <= 1
  {
    if x.Some? then [x.value] else []
  }

  /** Recognising a list that starts with `name`. */
  lemma RecognisedCons<T>(name: string, rest: seq<string>, extract: string -> Option<T>)
    ensures Recognised([name] + rest, extract) == Found(extract(name)) + Recognised(rest, extract)
  {
    assert ([name] + rest)[1..] == rest;
  }

  /** Recognising the entries of two parts of an archive recognises each part in turn. */
  lemma {:induction false} RecognisedConcatenates<T>(a: seq<string>, b: seq<string>, extract: string -> Option<T>)
    ensures Recognised(a + b, extract) == Recognised(a, extract) + Recognised(b, extract)
  {
    if a == [] {
      assert a + b == b;
    } else {
      var first := Found(extract(a[0]));
      assert a + b == [a[0]] + (a[1..] + b);
      RecognisedCons(a[0], a[1..] + b, extract);
      RecognisedConcatenates(a[1..], b, extract);
      assert Recognised(a, extract) == first + Recognised(a[1..], extract);
    }
  }

  /** `PuzzleLibraryUIDs`: the UIDs of the library entries among the archive's entries. */
  function PuzzleLibraryUIDs(entryNames: seq<string>): (uids: seq<int>)
    ensures |uids| <= |entryNames|
    ensures forall i :: 0 <= i < |uids| ==> uids[i] >= 0
  {
    var uids := Recognised(entryNames, ExtractEntryID);
    RecognisedNonNegative(entryNames);
    uids
  }

  lemma {:induction false} RecognisedNonNegative(entryNames: seq<string>)
    ensures forall i :: 0 <= i < |Recognised(entryNames, ExtractEntryID)| ==> Recognised(entryNames, ExtractEntryID)[i] >= 0
  {
    if entryNames != [] {
      RecognisedNonNegative(entryNames[1..]);
    }
  }

  /** `PlayerNames`: the names of the player profiles among the archive's entries. */
  function PlayerNames(entryNames: seq<string>): (names: seq<string>)
    ensures |names| <= |entryNames|
  {
    Recognised(entryNames, ExtractPlayerName)
  }

  /** The entry names written for some library UIDs, in order. */
  function LibraryEntryPaths(ids: seq<int>): (paths: seq<string>)
    ensures |paths| == |ids|
  {
    if ids == [] then [] else [GetLibraryEntryPath(ids[0])] + LibraryEntryPaths(ids[1..])
  }

  /** The entry names written for some players' profiles, in order. */
  function PlayerProfilePaths(playerNames: seq<string>): (paths: seq<string>)
    ensures |paths| == |playerNames|
  {
    if playerNames == [] then [] else [GetPlayerProfilePath(playerNames[0])] + PlayerProfilePaths(playerNames[1..])
  }

  /** An archive written for some library UIDs that are not negative and some
      players lists exactly those UIDs, in order, among its library entries. */
  lemma {:induction false} ListedLibraryUIDs(ids: seq<int>, playerNames: seq<string>)
    requires forall i :: 0 <= i < |ids| ==> ids[i] >= 0
    ensures PuzzleLibraryUIDs(LibraryEntryPaths(ids) + PlayerProfilePaths(playerNames)) == ids
  {
    RecognisedConcatenates(LibraryEntryPaths(ids), PlayerProfilePaths(playerNames), ExtractEntryID);
    LibraryUIDsOfPaths(ids);
    LibraryUIDsOfProfiles(playerNames);
  }

  /** An archive written for some library UIDs and some players whose names have
      no line break lists exactly those players, in order. */
  lemma {:induction false} ListedPlayerNames(ids: seq<int>, playerNames: seq<string>)
    requires forall i :: 0 <= i < |playerNames| ==> '\n' !in playerNames[i]
    ensures PlayerNames(LibraryEntryPaths(ids) + PlayerProfilePaths(playerNames)) == playerNames
  {
    RecognisedConcatenates(LibraryEntryPaths(ids), PlayerProfilePaths(playerNames), ExtractPlayerName);
    PlayerNamesOfPaths(ids);
    PlayerNamesOfProfiles(playerNames);
  }

  lemma {:induction false} LibraryUIDsOfPaths(ids: seq<int>)
    requires forall i :: 0 <= i < |ids| ==> ids[i] >= 0
    ensures PuzzleLibraryUIDs(LibraryEntryPaths(ids)) == ids
  {
    if ids != [] {
      EntryPathRoundTrip(ids[0]);
      LibraryUIDsOfPaths(ids[1..]);
      assert LibraryEntryPaths(ids)[1..] == LibraryEntryPaths(ids[1..]);
    }
  }

  lemma {:induction false} LibraryUIDsOfProfiles(playerNames: seq<string>)
    ensures PuzzleLibraryUIDs(PlayerProfilePaths(playerNames)) == []
  {
    if playerNames != [] {
      ProfileIsNoLibraryEntry(playerNames[0]);
      LibraryUIDsOfProfiles(playerNames[1..]);
      assert PlayerProfilePaths(playerNames)[1..] == PlayerProfilePaths(playerNames[1..]);
    }
  }

  lemma {:induction false} PlayerNamesOfPaths(ids: seq<int>)
    ensures PlayerNames(LibraryEntryPaths(ids)) == []
  {
    if ids != [] {
      LibraryEntryIsNoProfile(ids[0]);
      PlayerNamesOfPaths(ids[1..]);
      assert LibraryEntryPaths(ids)[1..] == LibraryEntryPaths(ids[1..]);
    }
  }

  lemma {:induction false} PlayerNamesOfProfiles(playerNames: seq<string>)
    requires forall i :: 0 <= i < |playerNames| ==> '\n' !in playerNames[i]
    ensures PlayerNames(PlayerProfilePaths(playerNames)) == playerNames
  {
    if playerNames != [] {
      PlayerPathRoundTrip(playerNames[0]);
      PlayerNamesOfProfiles(playerNames[1..]);
      assert PlayerProfilePaths(playerNames)[1..] == PlayerProfilePaths(playerNames[1..]);
    }
  }

  // ---------------------------------------------------------------- the profile format

  /** One line of a profile: "uid ticks". */
  function PairLine(pair: (int, int)): string
  {
    IntToDecimal(pair.0) + " " + IntToDecimal(pair.1)
  }

  /** The "uid ticks" lines of some pairs, in order. */
  function PairLines(pairs: seq<(int, int)>): (lines: seq<string>)
    ensures |lines| == |pairs|
  {
    if pairs == [] then [] else PairLines(pairs[..|pairs| - 1]) + [PairLine(pairs[|pairs| - 1])]
  }

  /** Line k of the pair lines is pair k's line. */
  lemma {:induction false} PairLinesAt(pairs: seq<(int, int)>, k: int)
    requires 0 <= k < |pairs|
    ensures PairLines(pairs)[k] == PairLine(pairs[k])
  {
    if k < |pairs| - 1 {
      PairLinesAt(pairs[..|pairs| - 1], k);
    }
  }

  /** The lines UpdatePlayerProfile writes for these (uid, ticks) pairs: their
      number, then one line per pair. */
  function FormatProfile(pairs: seq<(int, int)>): (lines: seq<string>)
    ensures |lines| == |pairs| + 1 && lines[0] == IntToDecimal(|pairs|)
  {
    [IntToDecimal(|pairs|)] + PairLines(pairs)
  }

  /** The best times after setting each pair's in turn: a later pair for the same
      uid overrides an earlier one. */
  function SetBestTimes(times: map<int, int>, pairs: seq<(int, int)>): map<int, int>
    decreases |pairs|
  {
    if pairs == [] then times else SetBestTimes(times[pairs[0].0 := pairs[0].1], pairs[1..])
  }

  /** One entry line, "uid ticks": the two numbers separated by one space, read
      left to right; a line without a second part is an index error. */
  function ParseEntryLine(line: string): (r: Result<(int, int), Error>)
    ensures r.Failure? ==> r.error == BadFormat || r.error == IndexOutOfRange
  {
    var parts := Split(line, ' ');
    match ParseInt(parts[0])
    case Failure(e) => Failure(e)
    case Success(uid) =>
      if |parts| < 2 then Failure(IndexOutOfRange)
      else
        match ParseInt(parts[1])
        case Failure(e) => Failure(e)
        case Success(ticks) => Success((uid, ticks))
  }

  /** Every pair reads back from the line written for it. */
  lemma EntryLineRoundTrip(pair: (int, int))
    ensures ParseEntryLine(PairLine(pair)) == Success(pair)
  {
    SplitAtSeparator(IntToDecimal(pair.0), ' ', IntToDecimal(pair.1));
    SplitAtSeparator(IntToDecimal(pair.1), ' ', "");
    ParseIntRoundTrip(pair.0);
    ParseIntRoundTrip(pair.1);
  }

  /** The loop of ReadPlayerProfile after `read` entries: reads line read + 1
      until `count` entries are read, each setting one best time. A missing
      line is a null dereference; a count that is never reached (a negative
      one) reads until the lines run out. */
  function ReadEntries(lines: seq<string>, read: nat, count: int, times: map<int, int>): (r: Result<map<int, int>, Error>)
    decreases |lines| - read
  {
    if read == count then Success(times)
    else if read + 1 >= |lines| then Failure(NullReference)
    else
      match ParseEntryLine(lines[read + 1])
      case Failure(e) => Failure(e)
      case Success(pair) => ReadEntries(lines, read + 1, count, times[pair.0 := pair.1])
  }

  /** One turn of the reading loop. */
  lemma ReadEntriesStep(lines: seq<string>, read: nat, count: int, times: map<int, int>)
    requires read != count
    ensures read + 1 >= |lines| ==> ReadEntries(lines, read, count, times) == Failure(NullReference)
    ensures read + 1 < |lines| ==>
              match ParseEntryLine(lines[read + 1])
              case Failure(e) => ReadEntries(lines, read, count, times) == Failure(e)
              case Success(pair) => ReadEntries(lines, read, count, times) == ReadEntries(lines, read + 1, count, times[pair.0 := pair.1])
  {
  }

  /** `ReadPlayerProfile`'s reading: the count line (missing: a null argument to
      `int.Parse`), then that many entry lines; the best times read. */
  function ReadProfile(lines: seq<string>): (r: Result<map<int, int>, Error>)
    ensures |lines| == 0 ==> r == Failure(ArgumentNull("s"))
    ensures |lines| > 0 && ParseInt(lines[0]).Failure? ==> r == Failure(BadFormat)
  {
    if |lines| == 0 then Failure(ArgumentNull("s"))
    else
      match ParseInt(lines[0])
      case Failure(e) => Failure(e)
      case Success(count) => ReadEntries(lines, 0, count, map[])
  }

  /** Reading the lines written for some pairs sets the best times pair by pair. */
  lemma {:induction false} ReadEntriesOfFormat(pairs: seq<(int, int)>, read: nat, times: map<int, int>)
    requires read <= |pairs|
    ensures ReadEntries(FormatProfile(pairs), read, |pairs|, times) == Success(SetBestTimes(times, pairs[read..]))
    decreases |pairs| - read
  {
    var lines := FormatProfile(pairs);
    if read < |pairs| {
      var pair := pairs[read];
      PairLinesAt(pairs, read);
      assert lines[read + 1] == PairLines(pairs)[read];
      EntryLineRoundTrip(pair);
      ReadEntriesOfFormat(pairs, read + 1, times[pair.0 := pair.1]);
      assert pairs[read..][1..] == pairs[read + 1..];
    } else {
      assert pairs[read..] == [];
    }
  }

  /** The profile format round-trips: reading what was written for some pairs
      gives their best times. */
  lemma ProfileRoundTrip(pairs: seq<(int, int)>)
    ensures ReadProfile(FormatProfile(pairs)) == Success(SetBestTimes(map[], pairs))
  {
    ParseIntRoundTrip(|pairs|);
    ReadEntriesOfFormat(pairs, 0, map[]);
    assert pairs[0..] == pairs;
  }

  /** Setting one more pair sets it over the others. */
  lemma {:induction false} SetBestTimesAppend(times: map<int, int>, pairs: seq<(int, int)>, pair: (int, int))
    ensures SetBestTimes(times, pairs + [pair]) == SetBestTimes(times, pairs)[pair.0 := pair.1]
    decreases |pairs|
  {
    if pairs == [] {
      assert pairs + [pair] == [pair];
    } else {
      SetBestTimesAppend(times[pairs[0].0 := pairs[0].1], pairs[1..], pair);
      assert (pairs + [pair])[1..] == pairs[1..] + [pair];
    }
  }

  /** The part of a map outside a set of keys. */
  function Without(times: map<int, int>, keys: set<int>): (r: map<int, int>)
    ensures forall uid :: uid in r <==> uid in times && uid !in keys
    ensures forall uid :: uid in r ==> r[uid] == times[uid]
  {
    map uid | uid in times && uid !in keys :: times[uid]
  }

  /** The query of `UpdatePlayerProfile`: a (uid, ticks) pair for every entry of
      the profile that has a best time, in the dictionary's order (here: any
      order); setting them one after the other gives the profile's best times. */
  method BestTimePairs(profile: PlayerProfile) returns (pairs: seq<(int, int)>)
    ensures SetBestTimes(map[], pairs) == profile.BestTimes()
    ensures |pairs| == |profile.BestTimes()|
  {
    ghost var times := profile.BestTimes();
    pairs := [];
    var rest := profile.EntryUIDs();
    while rest != {}
      invariant rest <= profile.entries.Keys
      invariant SetBestTimes(map[], pairs) == Without(times, rest)
      invariant |pairs| == |Without(times, rest)|
      decreases |rest|
    {
      ghost var some := SomeElement(rest);
      var uid :| uid in rest;
      var entry := profile.entries[uid];
      if entry.bestTime.Some? {
        assert uid in times && times[uid] == entry.bestTime.value;
        SetBestTimesAppend(map[], pairs, (uid, entry.bestTime.value));
        assert Without(times, rest - {uid}) == Without(times, rest)[uid := times[uid]];
        assert uid !in Without(times, rest);
        pairs := pairs + [(uid, entry.bestTime.value)];
      } else {
        assert uid !in times;
        assert Without(times, rest - {uid}) == Without(times, rest);
      }
      rest := rest - {uid};
    }
    assert Without(times, rest) == times;
  }

  /** `UpdatePlayerProfile(profile)`: the entry path, and the lines written — the
      number of pairs, then "uid ticks" for each pair. Entries without a best
      time are left out. Reading the lines back gives exactly the profile's best
      times. */
  method UpdatePlayerProfile(profile: PlayerProfile) returns (path: string, lines: seq<string>)
    ensures path == GetPlayerProfilePath(profile.name)
    ensures |lines| == |profile.BestTimes()| + 1 && lines[0] == IntToDecimal(|profile.BestTimes()|)
    ensures ReadProfile(lines) == Success(profile.BestTimes())
  {
    path := GetPlayerProfilePath(profile.name);
    var pairs := BestTimePairs(profile);
    lines := WriteProfileLines(pairs);
    ProfileRoundTrip(pairs);
  }

  /** The writing half of `UpdatePlayerProfile`: the count, then one line per pair. */
  method WriteProfileLines(pairs: seq<(int, int)>) returns (lines: seq<string>)
    ensures lines == FormatProfile(pairs)
  {
    lines := [IntToDecimal(|pairs|)];
    for i := 0 to |pairs|
      invariant lines == [IntToDecimal(|pairs|)] + PairLines(pairs[..i])
    {
      assert pairs[..i + 1][..i] == pairs[..i];
      lines := lines + [PairLine(pairs[i])];
    }
    assert pairs[..|pairs|] == pairs;
  }

  /** `ReadPlayerProfile(playerName)`, given the lines of the profile's entry: a new
      profile whose best times are those read, or the error the reading raises. */
  method ReadPlayerProfile(playerName: string, lines: seq<string>) returns (r: Result<PlayerProfile, Error>)
    ensures r.Failure? <==> ReadProfile(lines).Failure?
    ensures r.Failure? ==> r.error == ReadProfile(lines).error
    ensures r.Success? ==> && fresh(r.value) && r.value.Valid() && r.value.name == playerName
                           && r.value.BestTimes() == ReadProfile(lines).value
                           && r.value.BestTimes().Keys == r.value.entries.Keys
  {
    if |lines| == 0 {
      return Failure(ArgumentNull("s"));
    }
    var profile := new PlayerProfile(playerName);
    var entryCount := ParseInt(lines[0]);
    if entryCount.Failure? {
      return Failure(entryCount.error);
    }
    var outcome := ReadBestTimes(profile, lines, entryCount.value);
    if outcome.Fail? {
      return Failure(outcome.error);
    }
    r := Success(profile);
  }

  /** The loop of `ReadPlayerProfile`: entry line after entry line, each setting
      one best time of the new profile, until `count` of them are read. */
  method ReadBestTimes(profile: PlayerProfile, lines: seq<string>, count: int) returns (outcome: Outcome<Error>)
    requires |lines| > 0 && profile.entries == map[]
    modifies profile
    ensures profile.Valid()
    ensures outcome.Fail? <==> ReadEntries(lines, 0, count, map[]).Failure?
    ensures outcome.Fail? ==> outcome.error == ReadEntries(lines, 0, count, map[]).error
    ensures outcome.Pass? ==> && profile.BestTimes() == ReadEntries(lines, 0, count, map[]).value
                              && profile.BestTimes().Keys == profile.entries.Keys
  {
    assert profile.BestTimes() == map[];
    var i: nat := 0;
    while i != count
      invariant i < |lines|
      invariant profile.Valid()
      invariant forall e :: e in profile.entries.Values ==> fresh(e)
      invariant profile.BestTimes().Keys == profile.entries.Keys
      invariant ReadEntries(lines, 0, count, map[]) == ReadEntries(lines, i, count, profile.BestTimes())
      decreases |lines| - i
    {
      ReadEntriesStep(lines, i, count, profile.BestTimes());
      if i + 1 >= |lines| {
        return Fail(NullReference);
      }
      var pair := ParseEntryLine(lines[i + 1]);
      if pair.Failure? {
        return Fail(pair.error);
      }
      profile.SetBestTime(pair.value.0, pair.value.1);
      i := i + 1;
    }
    outcome := Pass;
  }
}
