/** The in-memory game data of Domain/PiCross/InMemoryDatabase.cs: a puzzle
    library (entries with unique UIDs handed out by a counter), a player
    database (profiles keyed by player name) and, per player, a lazily filled
    table of best times. Best times are `TimeSpan` ticks. */
module InMemoryDatabases {
  import opened Wrappers
  import opened Domain

  /** The message of an `ArgumentException` raised without one. */
  const DefaultArgumentMessage: string := "Value does not fall within the expected range."

  // ---------------------------------------------------------------- puzzle library

  /** A puzzle of the library, with its author; the UID never changes. */
  class PuzzleLibraryEntry {
    const uid: int
    var puzzle: Puzzle
    var author: string

    constructor (uid: int, puzzle: Puzzle, author: string)
      ensures this.uid == uid && this.puzzle == puzzle && this.author == author
    {
      this.uid := uid;
      this.puzzle := puzzle;
      this.author := author;
    }

    /** Entries are equal when their UIDs are. */
    predicate Equals(that: PuzzleLibraryEntry)
    {
      uid == that.uid
    }
  }

  /** The UIDs of a list of entries, in order. */
  function UIDs(entries: seq<PuzzleLibraryEntry>): (uids: seq<int>)
    ensures |uids| == |entries|
    ensures forall i :: 0 <= i < |entries| ==> uids[i] == entries[i].uid
  {
    seq(|entries|, i requires 0 <= i < |entries| => entries[i].uid)
  }

  /** `entries.Find(entry => entry.UID == id)`: the first entry with that UID. */
  function FindEntry(entries: seq<PuzzleLibraryEntry>, id: int): (r: Option<PuzzleLibraryEntry>)
    ensures r.None? <==> id !in UIDs(entries)
    ensures r.Some? ==> r.value in entries && r.value.uid == id
  {
    if entries == [] then None
    else if entries[0].uid == id then Some(entries[0])
    else
      assert UIDs(entries) == [entries[0].uid] + UIDs(entries[1..]);
      FindEntry(entries[1..], id)
  }

  /** The library's next UID after adding `es` in order to an empty library: each
      `Add` raises the counter to the added UID + 1 when it lies below. */
  function NextUIDAfter(es: seq<PuzzleLibraryEntry>): (n: int)
    ensures n >= 0
  {
    if es == [] then 0
    else
      var prev := NextUIDAfter(es[..|es| - 1]);
      var last := es[|es| - 1].uid;
      if prev < last + 1 then last + 1 else prev
  }

  /** The counter after loading is the least non-negative number above every UID. */
  lemma {:induction false} NextUIDAfterIsLeastAbove(es: seq<PuzzleLibraryEntry>)
    ensures forall i :: 0 <= i < |es| ==> es[i].uid < NextUIDAfter(es)
    ensures NextUIDAfter(es) == 0 || exists i :: 0 <= i < |es| && NextUIDAfter(es) == es[i].uid + 1
  {
    if es != [] {
      var prefix := es[..|es| - 1];
      NextUIDAfterIsLeastAbove(prefix);
      assert forall i :: 0 <= i < |prefix| ==> prefix[i] == es[i];
    }
  }

  /** Adding one more entry raises the counter as one `Add` does. */
  lemma NextUIDAfterAppend(es: seq<PuzzleLibraryEntry>, e: PuzzleLibraryEntry)
    ensures NextUIDAfter(es + [e]) == if NextUIDAfter(es) < e.uid + 1 then e.uid + 1 else NextUIDAfter(es)
  {
    assert (es + [e])[..|es|] == es;
  }

  /** Two positions of a list without repeated UIDs that hold the same UID are one position. */
  lemma DistinctUIDsAt(entries: seq<PuzzleLibraryEntry>, i: int, k: int)
    requires forall i, j :: 0 <= i < j < |entries| ==> entries[i].uid != entries[j].uid
    requires 0 <= i < |entries| && 0 <= k < |entries| && entries[i].uid == entries[k].uid
    ensures i == k
  {
  }

  class PuzzleLibrary {
    var entries: seq<PuzzleLibraryEntry>
    var nextUID: int

    /** The UIDs are pairwise distinct and all below the next UID to hand out. */
    ghost predicate Valid()
      reads this
    {
      && (forall i, j :: 0 <= i < j < |entries| ==> entries[i].uid != entries[j].uid)
      && (forall i :: 0 <= i < |entries| ==> entries[i].uid < nextUID)
    }

    /** `PuzzleLibrary.CreateEmpty()`. */
    constructor CreateEmpty()
      ensures Valid() && entries == [] && nextUID == 0
    {
      entries := [];
      nextUID := 0;
    }

    /** `ContainsEntryWithUID(uid)`: some entry has the UID, which is to say the
        search the indexer makes finds one. */
    predicate ContainsEntryWithUID(uid: int)
      reads this
      ensures ContainsEntryWithUID(uid) <==> uid in UIDs(entries)
      ensures ContainsEntryWithUID(uid) <==> FindEntry(entries, uid).Some?
    {
      exists i :: 0 <= i < |entries| && entries[i].uid == uid
    }

    /** The indexer `this[id]`: the entry with that UID, or "No entry found". */
    function Get(id: int): (r: Result<PuzzleLibraryEntry, Error>)
      reads this
      ensures r.Failure? <==> !ContainsEntryWithUID(id)
      ensures r.Failure? ==> r.error == InvalidArgument("No entry found")
      ensures r.Success? ==> r.value in entries && r.value.uid == id
    {
      match FindEntry(entries, id)
      case None => Failure(InvalidArgument("No entry found"))
      case Some(entry) => Success(entry)
    }

    /** In a valid library every entry is found under its own UID. */
    lemma GetFindsEveryEntry(k: int)
      requires Valid() && 0 <= k < |entries|
      ensures Get(entries[k].uid) == Success(entries[k])
    {
      var r := FindEntry(entries, entries[k].uid);
      assert UIDs(entries)[k] == entries[k].uid;
      var i :| 0 <= i < |entries| && entries[i] == r.value;
      DistinctUIDsAt(entries, i, k);
    }

    /** `Create(puzzle, author)`: a new entry with UID `nextUID`, which is then
        incremented; that UID is not yet in use, and the entry is appended. */
    method Create(puzzle: Puzzle, author: string) returns (entry: PuzzleLibraryEntry)
      requires Valid()
      modifies this
      ensures Valid()
      ensures fresh(entry) && entry.uid == old(nextUID) && entry.puzzle == puzzle && entry.author == author
      ensures !old(ContainsEntryWithUID(nextUID))
      ensures entries == old(entries) + [entry] && nextUID == old(nextUID) + 1
      ensures Get(entry.uid) == Success(entry)
    {
      var uid := nextUID;
      nextUID := nextUID + 1;
      entry := new PuzzleLibraryEntry(uid, puzzle, author);
      entries := entries + [entry];
      GetFindsEveryEntry(|entries| - 1);
    }

    /** `Add(libraryEntry)`: rejects a null entry and one whose UID is already
        present; otherwise appends it and raises `nextUID` past its UID. */
    method Add(libraryEntry: PuzzleLibraryEntry?) returns (r: Outcome<Error>)
      requires Valid()
      modifies this
      ensures Valid()
      ensures r.Fail? <==> libraryEntry == null || old(ContainsEntryWithUID(libraryEntry.uid))
      ensures libraryEntry == null ==> r == Fail(ArgumentNull("libraryEntry"))
      ensures libraryEntry != null && r.Fail? ==> r == Fail(InvalidArgument(DefaultArgumentMessage))
      ensures r.Fail? ==> entries == old(entries) && nextUID == old(nextUID)
      ensures r.Pass? ==> && entries == old(entries) + [libraryEntry]
                          && nextUID == (if old(nextUID) < libraryEntry.uid + 1 then libraryEntry.uid + 1
                                         else old(nextUID))
                          && Get(libraryEntry.uid) == Success(libraryEntry)
    {
      if libraryEntry == null {
        return Fail(ArgumentNull("libraryEntry"));
      }
      if ContainsEntryWithUID(libraryEntry.uid) {
        return Fail(InvalidArgument(DefaultArgumentMessage));
      }
      ghost var oldEntries := entries;
      assert forall i :: 0 <= i < |oldEntries| ==> oldEntries[i].uid != libraryEntry.uid;
      entries := entries + [libraryEntry];
      nextUID := if nextUID < libraryEntry.uid + 1 then libraryEntry.uid + 1 else nextUID;
      assert forall i :: 0 <= i < |oldEntries| ==> entries[i] == oldEntries[i];
      GetFindsEveryEntry(|entries| - 1);
      r := Pass;
    }

    /** `Equals(library)`: same number of entries and, position by position,
        equal entries, which is to say the same UIDs in the same order. */
    predicate Equals(library: PuzzleLibrary?)
      reads this, library
      ensures Equals(library) <==> library != null && UIDs(entries) == UIDs(library.entries)
    {
      if library == null then false
      else if |entries| != |library.entries| then false
      else
        assert |UIDs(entries)| == |UIDs(library.entries)|;
        forall i :: 0 <= i < |entries| ==> entries[i].Equals(library.entries[i])
    }
  }

  // ---------------------------------------------------------------- player data

  /** The best time of one player on one puzzle, if any (`TimeSpan?`, in ticks). */
  class PlayerPuzzleInformationEntry {
    var bestTime: Option<int>

    /** A new entry has no best time. */
    constructor ()
      ensures bestTime == None
    {
      bestTime := None;
    }

    /** The `BestTime` setter. */
    method SetBestTime(value: Option<int>)
      modifies this
      ensures bestTime == value
    {
      bestTime := value;
    }

    /** Entries are equal when their best times are. */
    predicate Equals(entry: PlayerPuzzleInformationEntry?)
      reads this, entry
    {
      entry != null && bestTime == entry.bestTime
    }
  }

  class PlayerProfile {
    const name: string
    var entries: map<int, PlayerPuzzleInformationEntry>

    /** No two puzzles share an information entry. */
    ghost predicate Valid()
      reads this
    {
      forall a, b :: a in entries && b in entries && a != b ==> entries[a] != entries[b]
    }

    /** A new profile has no entries. */
    constructor (name: string)
      ensures Valid() && this.name == name && entries == map[]
    {
      this.name := name;
      entries := map[];
    }

    /** The indexer `this[id]`: on first access an entry without best time is
        stored under id; every access returns the stored entry. */
    method Get(id: int) returns (entry: PlayerPuzzleInformationEntry)
      requires Valid()
      modifies this
      ensures Valid()
      ensures id in entries && entry == entries[id]
      ensures id in old(entries) ==> entries == old(entries) && entry == old(entries[id])
      ensures id !in old(entries) ==> fresh(entry) && entry.bestTime == None && entries == old(entries)[id := entry]
    {
      if id !in entries {
        var created := new PlayerPuzzleInformationEntry();
        entries := entries[id := created];
      }
      entry := entries[id];
    }

    /** `EntryUIDs`: the puzzles this player has an entry for. */
    function EntryUIDs(): set<int>
      reads this
    {
      entries.Keys
    }

    /** `this[uid].BestTime = Some(ticks)`: the indexer, then the setter on the
        entry it returns. Only that puzzle's best time changes. */
    method SetBestTime(uid: int, ticks: int)
      requires Valid()
      modifies this, entries.Values
      ensures Valid()
      ensures BestTimes() == old(BestTimes())[uid := ticks]
      ensures entries.Keys == old(entries.Keys) + {uid}
      ensures forall e :: e in entries.Values ==> e in old(entries.Values) || fresh(e)
    {
      TimesOfEntries();
      ghost var before := BestTimes();
      ghost var oldTimes := EntryTimes();
      ghost var oldEntries := entries;
      var entry := Get(uid);
      ValuesAfterPut(oldEntries, entries, uid);
      ghost var times := EntryTimes();
      assert forall u :: u in oldTimes && u != uid ==> times[u] == oldTimes[u];
      entry.SetBestTime(Some(ticks));
      ghost var after := EntryTimes();
      assert forall u :: u in entries && u != uid ==> after[u] == times[u];
      assert after.Keys == oldTimes.Keys + {uid};
      TimesAfterSet(oldTimes, after, uid, ticks);
      TimesOfEntries();
      assert BestTimes() == before[uid := ticks];
    }

    /** Every entry's best time, recorded or not. */
    ghost function EntryTimes(): (times: map<int, Option<int>>)
      reads this, entries.Values
      ensures times.Keys == entries.Keys
      ensures forall uid :: uid in times ==> times[uid] == entries[uid].bestTime
    {
      map uid | uid in entries :: entries[uid].bestTime
    }

    /** BestTimes keeps the recorded ones. */
    lemma TimesOfEntries()
      ensures BestTimes() == TimesOf(EntryTimes())
    {
    }

    /** The best time recorded for each puzzle, for the entries that have one. */
    function BestTimes(): (times: map<int, int>)
      reads this, entries.Values
      ensures forall uid :: uid in times <==> uid in entries && entries[uid].bestTime.Some?
      ensures forall uid :: uid in times ==> Some(times[uid]) == entries[uid].bestTime
    {
      map uid | uid in entries && entries[uid].bestTime.Some? :: entries[uid].bestTime.value
    }

    /** Profiles are equal when their names are. */
    predicate Equals(profile: PlayerProfile)
    {
      name == profile.name
    }
  }

  /** The recorded times of a map of optional times. */
  function TimesOf(times: map<int, Option<int>>): (recorded: map<int, int>)
    ensures forall uid :: uid in recorded <==> uid in times && times[uid].Some?
    ensures forall uid :: uid in recorded ==> times[uid] == Some(recorded[uid])
  {
    map uid | uid in times && times[uid].Some? :: times[uid].value
  }

  /** Recording a time under uid, when the other entries keep theirs, adds
      exactly that time to the recorded ones. */
  lemma TimesAfterSet(before: map<int, Option<int>>, after: map<int, Option<int>>, uid: int, ticks: int)
    requires after.Keys == before.Keys + {uid} && after[uid] == Some(ticks)
    requires forall u :: u in before && u != uid ==> after[u] == before[u]
    ensures TimesOf(after) == TimesOf(before)[uid := ticks]
  {
    var expected := TimesOf(before)[uid := ticks];
    forall u | u in after && u != uid
      ensures (u in TimesOf(after) <==> u in expected)
    {
      assert after[u] == before[u];
    }
    assert TimesOf(after).Keys == expected.Keys;
    forall u | u in expected
      ensures TimesOf(after)[u] == expected[u]
    {
      if u != uid {
        assert after[u] == before[u];
      }
    }
  }

  /** Some element of a non-empty set. */
  lemma SomeElement<T>(s: set<T>) returns (x: T)
    requires s != {}
    ensures x in s
  {
    x :| x in s;
  }

  /** A map that gained at most one key holds the old values and the one under that key. */
  lemma ValuesAfterPut<K, V>(before: map<K, V>, after: map<K, V>, key: K)
    requires key in after && (after == before || after == before[key := after[key]])
    ensures forall v :: v in after.Values ==> v in before.Values || v == after[key]
  {
    forall v | v in after.Values
      ensures v in before.Values || v == after[key]
    {
      var k :| k in after && after[k] == v;
      if k != key {
        assert before[k] == v;
      }
    }
  }

  /** Characters for which .NET's `Char.IsWhiteSpace` holds. */
  predicate IsWhiteSpace(c: char)
  {
    || ('\U{0009}' <= c <= '\U{000D}') || c == '\U{0020}' || c == '\U{0085}' || c == '\U{00A0}'
    || c == '\U{1680}' || ('\U{2000}' <= c <= '\U{200A}') || c == '\U{2028}' || c == '\U{2029}'
    || c == '\U{202F}' || c == '\U{205F}' || c == '\U{3000}'
  }

  /** `!string.IsNullOrWhiteSpace(name)`: present and not all white space. */
  predicate IsValidPlayerName(name: Option<string>)
  {
    name.Some? && exists i :: 0 <= i < |name.value| && !IsWhiteSpace(name.value[i])
  }

  /** Ordinal string order: by character codes, a proper prefix first. */
  predicate OrdinalLess(a: string, b: string)
  {
    if a == [] then b != []
    else if b == [] then false
    else if a[0] != b[0] then a[0] < b[0]
    else OrdinalLess(a[1..], b[1..])
  }

  lemma {:induction false} OrdinalLessIrreflexive(a: string)
    ensures !OrdinalLess(a, a)
  {
    if a != [] {
      OrdinalLessIrreflexive(a[1..]);
    }
  }

  lemma {:induction false} OrdinalLessTransitive(a: string, b: string, c: string)
    requires OrdinalLess(a, b) && OrdinalLess(b, c)
    ensures OrdinalLess(a, c)
  {
    if a != [] && b != [] && c != [] && a[0] == b[0] && b[0] == c[0] {
      OrdinalLessTransitive(a[1..], b[1..], c[1..]);
    }
  }

  lemma {:induction false} OrdinalLessTotal(a: string, b: string)
    requires a != b
    ensures OrdinalLess(a, b) || OrdinalLess(b, a)
  {
    if a != [] && b != [] && a[0] == b[0] {
      assert a == [a[0]] + a[1..] && b == [b[0]] + b[1..];
      OrdinalLessTotal(a[1..], b[1..]);
    }
  }

  /** Strictly ascending: sorted and without duplicates. */
  predicate StrictlySorted(names: seq<string>)
  {
    forall i, j :: 0 <= i < j < |names| ==> OrdinalLess(names[i], names[j])
  }

  /** Puts a new name in its place in a strictly sorted list. */
  function InsertSorted(names: seq<string>, n: string): (r: seq<string>)
    requires StrictlySorted(names) && n !in names
    ensures StrictlySorted(r)
    ensures |r| == |names| + 1
    ensures forall m :: m in r <==> m in names || m == n
  {
    if names == [] then [n]
    else if OrdinalLess(n, names[0]) then
      assert forall j :: 0 <= j < |names| ==> OrdinalLess(n, names[j]) by {
        forall j | 0 < j < |names| {
          OrdinalLessTransitive(n, names[0], names[j]);
        }
      }
      [n] + names
    else
      OrdinalLessTotal(n, names[0]);
      var rest := InsertSorted(names[1..], n);
      assert forall m :: m in rest ==> OrdinalLess(names[0], m);
      [names[0]] + rest
  }

  /** A set of names has only one strictly sorted listing. */
  lemma {:induction false} StrictlySortedUnique(a: seq<string>, b: seq<string>)
    requires StrictlySorted(a) && StrictlySorted(b)
    requires forall m :: m in a <==> m in b
    ensures a == b
  {
    assert a != [] <==> b != [] by {
      if a != [] {
        assert a[0] in b;
      }
      if b != [] {
        assert b[0] in a;
      }
    }
    if a != [] {
      assert a[0] in b;
      assert b[0] in a;
      if a[0] != b[0] {
        var k :| 0 <= k < |b| && b[k] == a[0];
        var m :| 0 <= m < |a| && a[m] == b[0];
        assert OrdinalLess(b[0], a[0]) && OrdinalLess(a[0], b[0]);
        OrdinalLessTransitive(a[0], b[0], a[0]);
        OrdinalLessIrreflexive(a[0]);
        assert false;
      }
      forall n | n in a[1..]
        ensures n in b[1..]
      {
        var i :| 1 <= i < |a| && a[i] == n;
        OrdinalLessIrreflexive(n);
        assert n in a;
        var j :| 0 <= j < |b| && b[j] == n;
        assert j != 0;
        assert b[1..][j - 1] == n;
      }
      forall n | n in b[1..]
        ensures n in a[1..]
      {
        var i :| 1 <= i < |b| && b[i] == n;
        OrdinalLessIrreflexive(n);
        assert n in b;
        var j :| 0 <= j < |a| && a[j] == n;
        assert j != 0;
        assert a[1..][j - 1] == n;
      }
      StrictlySortedUnique(a[1..], b[1..]);
      assert a == [a[0]] + a[1..] && b == [b[0]] + b[1..];
    }
  }

  class PlayerDatabase {
    var playerProfiles: map<string, PlayerProfile>

    /** Every profile is stored under its own name. */
    ghost predicate Valid()
      reads this
    {
      forall n :: n in playerProfiles ==> playerProfiles[n].name == n
    }

    /** `PlayerDatabase.CreateEmpty()`. */
    constructor CreateEmpty()
      ensures Valid() && playerProfiles == map[]
    {
      playerProfiles := map[];
    }

    /** The indexer `this[name]`: rejects an invalid name, fails on an unknown one. */
    function Get(name: Option<string>): (r: Result<PlayerProfile, Error>)
      reads this
      ensures r.Failure? <==> !IsValidPlayerName(name) || name.value !in playerProfiles
      ensures !IsValidPlayerName(name) ==> r == Failure(InvalidArgument("Invalid name"))
      ensures IsValidPlayerName(name) && name.value !in playerProfiles ==> r == Failure(KeyNotFound)
      ensures r.Success? ==> r.value == playerProfiles[name.value]
    {
      if !IsValidPlayerName(name) then Failure(InvalidArgument("Invalid name"))
      else if name.value !in playerProfiles then Failure(KeyNotFound)
      else Success(playerProfiles[name.value])
    }

    /** `CreateNewProfile(name)`: rejects an invalid name and one already taken;
        otherwise stores and returns a new, empty profile of that name. */
    method CreateNewProfile(name: Option<string>) returns (r: Result<PlayerProfile, Error>)
      requires Valid()
      modifies this
      ensures Valid()
      ensures r.Failure? <==> !IsValidPlayerName(name) || name.value in old(playerProfiles)
      ensures !IsValidPlayerName(name) ==> r == Failure(InvalidArgument("Invalid name"))
      ensures IsValidPlayerName(name) && name.value in old(playerProfiles) ==>
                r == Failure(InvalidArgument("Player already exists"))
      ensures r.Failure? ==> playerProfiles == old(playerProfiles)
      ensures r.Success? ==> && fresh(r.value) && r.value.name == name.value && r.value.entries == map[]
                             && playerProfiles == old(playerProfiles)[name.value := r.value]
                             && Get(name) == r
    {
      if !IsValidPlayerName(name) {
        return Failure(InvalidArgument("Invalid name"));
      }
      if name.value in playerProfiles {
        return Failure(InvalidArgument("Player already exists"));
      }
      var profile := new PlayerProfile(name.value);
      playerProfiles := playerProfiles[profile.name := profile];
      r := Success(profile);
    }

    /** `AddProfile(profile)`: rejects a profile whose name is taken; otherwise stores it. */
    method AddProfile(profile: PlayerProfile) returns (r: Outcome<Error>)
      requires Valid()
      modifies this
      ensures Valid()
      ensures r.Fail? <==> profile.name in old(playerProfiles)
      ensures r.Fail? ==> r.error == InvalidArgument("Player with same name already exists")
                          && playerProfiles == old(playerProfiles)
      ensures r.Pass? ==> playerProfiles == old(playerProfiles)[profile.name := profile]
    {
      if profile.name in playerProfiles {
        return Fail(InvalidArgument("Player with same name already exists"));
      }
      playerProfiles := playerProfiles[profile.name := profile];
      r := Pass;
    }

    /** `PlayerNames`: every stored name, once, in ascending order. By
        StrictlySortedUnique there is only one such list. */
    method PlayerNames() returns (names: seq<string>)
      ensures StrictlySorted(names)
      ensures forall n :: n in names <==> n in playerProfiles
      ensures |names| == |playerProfiles|
    {
      names := [];
      var rest := playerProfiles.Keys;
      while rest != {}
        invariant rest <= playerProfiles.Keys
        invariant StrictlySorted(names)
        invariant forall n :: n in names <==> n in playerProfiles && n !in rest
        invariant |names| + |rest| == |playerProfiles|
        decreases |rest|
      {
        var n :| n in rest;
        names := InsertSorted(names, n);
        rest := rest - {n};
      }
    }
  }

  // ---------------------------------------------------------------- the database

  /** A puzzle library and a player database together. */
  class InMemoryDatabase {
    const puzzles: PuzzleLibrary
    const players: PlayerDatabase

    constructor (library: PuzzleLibrary, playerDatabase: PlayerDatabase)
      ensures puzzles == library && players == playerDatabase
    {
      puzzles := library;
      players := playerDatabase;
    }

    /** The public constructor `InMemoryDatabase(library, playerDatabase)`, with its
        null checks: a null library is reported first, then a null player database. */
    static method New(library: PuzzleLibrary?, playerDatabase: PlayerDatabase?)
      returns (r: Result<InMemoryDatabase, Error>)
      ensures r.Failure? <==> library == null || playerDatabase == null
      ensures library == null ==> r == Failure(ArgumentNull("library"))
      ensures library != null && playerDatabase == null ==> r == Failure(ArgumentNull("playerDatabase"))
      ensures r.Success? ==> fresh(r.value) && r.value.puzzles == library && r.value.players == playerDatabase
    {
      if library == null {
        return Failure(ArgumentNull("library"));
      } else if playerDatabase == null {
        return Failure(ArgumentNull("playerDatabase"));
      }
      var db := new InMemoryDatabase(library, playerDatabase);
      r := Success(db);
    }

    /** `InMemoryDatabase.CreateEmpty()`: an empty library and no players. */
    static method CreateEmpty() returns (db: InMemoryDatabase)
      ensures fresh(db) && fresh(db.puzzles) && fresh(db.players)
      ensures db.puzzles.Valid() && db.puzzles.entries == [] && db.puzzles.nextUID == 0
      ensures db.players.Valid() && db.players.playerProfiles == map[]
    {
      var library := new PuzzleLibrary.CreateEmpty();
      var playerDatabase := new PlayerDatabase.CreateEmpty();
      db := new InMemoryDatabase(library, playerDatabase);
    }

    /** `ReadFromArchive(archive)`, given the profiles and the library entries the
        archive yields, in its order: every profile is added, then every entry;
        the first duplicate name or UID ends the reading with the error it raises. */
    static method ReadFromArchive(profiles: seq<PlayerProfile>, libraryEntries: seq<PuzzleLibraryEntry>)
      returns (r: Result<InMemoryDatabase, Error>)
      ensures r.Failure? <==> !DistinctNames(profiles) || !DistinctUIDs(libraryEntries)
      ensures !DistinctNames(profiles) ==> r == Failure(InvalidArgument("Player with same name already exists"))
      ensures DistinctNames(profiles) && !DistinctUIDs(libraryEntries) ==>
                r == Failure(InvalidArgument(DefaultArgumentMessage))
      ensures r.Success? ==> && fresh(r.value) && r.value.puzzles.Valid() && r.value.players.Valid()
                             && r.value.puzzles.entries == libraryEntries
                             && r.value.puzzles.nextUID == NextUIDAfter(libraryEntries)
                             && (forall n :: n in r.value.players.playerProfiles <==>
                                               exists i :: 0 <= i < |profiles| && profiles[i].name == n)
                             && (forall i :: 0 <= i < |profiles| ==>
                                               r.value.players.playerProfiles[profiles[i].name] == profiles[i])
    {
      var db := CreateEmpty();
      var read := AddProfiles(db.players, profiles);
      if read.Fail? {
        return Failure(read.error);
      }
      read := AddEntries(db.puzzles, libraryEntries);
      if read.Fail? {
        return Failure(read.error);
      }
      r := Success(db);
    }

    /** The first loop of `ReadFromArchive`: every profile added in turn. */
    static method AddProfiles(players: PlayerDatabase, profiles: seq<PlayerProfile>) returns (r: Outcome<Error>)
      requires players.Valid() && players.playerProfiles == map[]
      modifies players
      ensures players.Valid()
      ensures r.Fail? <==> !DistinctNames(profiles)
      ensures r.Fail? ==> r.error == InvalidArgument("Player with same name already exists")
      ensures r.Pass? ==> && (forall n :: n in players.playerProfiles <==>
                                            exists i :: 0 <= i < |profiles| && profiles[i].name == n)
                          && (forall i :: 0 <= i < |profiles| ==> players.playerProfiles[profiles[i].name] == profiles[i])
    {
      for i := 0 to |profiles|
        invariant players.Valid()
        invariant DistinctNames(profiles[..i])
        invariant forall n :: n in players.playerProfiles <==> exists k :: 0 <= k < i && profiles[k].name == n
        invariant forall k :: 0 <= k < i ==> players.playerProfiles[profiles[k].name] == profiles[k]
      {
        var added := players.AddProfile(profiles[i]);
        if added.Fail? {
          assert !DistinctNames(profiles) by {
            var k :| 0 <= k < i && profiles[k].name == profiles[i].name;
          }
          return added;
        }
      }
      assert profiles[..|profiles|] == profiles;
      r := Pass;
    }

    /** The second loop of `ReadFromArchive`: every library entry added in turn. */
    static method AddEntries(library: PuzzleLibrary, libraryEntries: seq<PuzzleLibraryEntry>) returns (r: Outcome<Error>)
      requires library.Valid() && library.entries == [] && library.nextUID == 0
      modifies library
      ensures library.Valid()
      ensures r.Fail? <==> !DistinctUIDs(libraryEntries)
      ensures r.Fail? ==> r.error == InvalidArgument(DefaultArgumentMessage)
      ensures r.Pass? ==> library.entries == libraryEntries && library.nextUID == NextUIDAfter(libraryEntries)
    {
      for i := 0 to |libraryEntries|
        invariant library.Valid() && library.entries == libraryEntries[..i]
        invariant library.nextUID == NextUIDAfter(libraryEntries[..i])
        invariant DistinctUIDs(libraryEntries[..i])
      {
        var added := AddEntry(library, libraryEntries, i);
        if added.Fail? {
          return added;
        }
      }
      assert libraryEntries[..|libraryEntries|] == libraryEntries;
      r := Pass;
    }

    /** One round of the entry loop: entry i is added to a library holding the entries before it. */
    static method AddEntry(library: PuzzleLibrary, libraryEntries: seq<PuzzleLibraryEntry>, i: int) returns (r: Outcome<Error>)
      requires 0 <= i < |libraryEntries|
      requires library.Valid() && library.entries == libraryEntries[..i]
      requires library.nextUID == NextUIDAfter(libraryEntries[..i]) && DistinctUIDs(libraryEntries[..i])
      modifies library
      ensures library.Valid()
      ensures r.Fail? ==> !DistinctUIDs(libraryEntries) && r == Fail(InvalidArgument(DefaultArgumentMessage))
      ensures r.Pass? ==> && library.entries == libraryEntries[..i + 1]
                          && library.nextUID == NextUIDAfter(libraryEntries[..i + 1])
                          && DistinctUIDs(libraryEntries[..i + 1])
    {
      ghost var before := libraryEntries[..i];
      var entry := libraryEntries[i];
      ghost var after := before + [entry];
      assert after == libraryEntries[..i + 1];
      NextUIDAfterAppend(before, entry);
      r := library.Add(entry);
      if r.Fail? {
        assert !DistinctUIDs(libraryEntries) by {
          var k :| 0 <= k < |before| && before[k].uid == entry.uid;
          assert libraryEntries[k].uid == libraryEntries[i].uid;
        }
      }
    }

    /** `Equals(gameData)`: both parts equal. Player databases compare with the
        dictionary `EqualItems` extension, which is not part of this model, so
        that comparison is a parameter. */
    predicate Equals(gameData: InMemoryDatabase?, playersEqual: (PlayerDatabase, PlayerDatabase) -> bool)
      reads this, puzzles
      reads if gameData != null then {gameData, gameData.puzzles} else {}
    {
      gameData != null && puzzles.Equals(gameData.puzzles) && playersEqual(players, gameData.players)
    }
  }

  /** No two profiles share a name. */
  predicate DistinctNames(profiles: seq<PlayerProfile>)
  {
    forall i, j :: 0 <= i < j < |profiles| ==> profiles[i].name != profiles[j].name
  }

  /** No two entries share a UID. */
  predicate DistinctUIDs(libraryEntries: seq<PuzzleLibraryEntry>)
  {
    forall i, j :: 0 <= i < j < |libraryEntries| ==> libraryEntries[i].uid != libraryEntries[j].uid
  }
}
