/** Every byte of the settings and of the file after the initialisation. */
module SettingsBytes {
  import opened SettingsImage
  import opened Settings

  /** Byte k belongs to one of the two fields that a build can add. */
  predicate Added(build: Build, k: int) {
    (build.deepSleep && 24 <= k < 28) || (build.networkStandby && k == NetworkAt(build))
  }

  lemma AddedBytes(build: Build, image: Bytes, g: Globals)
    requires |image| == Size(build)
    ensures forall k :: 0 <= k < |image| && !Added(build, k) ==> WithGlobals(build, image, g)[k] == image[k]
    ensures build.deepSleep ==> WithGlobals(build, image, g)[24..28] == Digits(g.timeout)
    ensures build.networkStandby ==> WithGlobals(build, image, g)[NetworkAt(build)] == if g.network then 1 else 0
  {
    if build.deepSleep {
      PutAt(image, TIMEOUT_AT, g.timeout);
      assert Put(image, TIMEOUT_AT, g.timeout)[24..28] == Digits(g.timeout);
    }
  }

  /** The fields that a build adds hold the globals. */
  predicate HoldsGlobals(build: Build, image: Bytes, g: Globals)
    requires |image| == Size(build)
  {
    && (build.deepSleep ==> image[24..28] == Digits(g.timeout))
    && (build.networkStandby ==> image[NetworkAt(build)] == if g.network then 1 else 0)
  }

  /** What a byte of memory is after reading: that of the file where the file is read, else what it was. */
  function ByteRead(file: Bytes, memory: Bytes, k: nat, n: nat): Byte
    requires k < |memory|
  {
    if k < |file| && k < n then file[k] else memory[k]
  }

  lemma FetchedByte(file: Bytes, memory: Bytes, k: nat)
    requires BASE_SIZE <= k + BASE_SIZE && |memory| >= BASE_SIZE && k < |memory|
    ensures Fetched(file, memory)[k] == ByteRead(file, memory, k,
              if |file| >= 12 && Get(file, 1) == 1 && Get(file, 2) > 12 then Get(file, 2) else 12)
  {
  }

  /** The length word is set over an image, and the power word when the box boots to standby. */
  function Resized(image: Bytes, toStandby: bool): (r: Bytes)
    requires BASE_SIZE <= |image| < 0x1_0000_0000
    ensures |r| == |image|
  {
    var sized := Put(image, LENGTH_AT, |image|);
    if toStandby then Put(sized, POWER_AT, STANDBY) else sized
  }

  lemma ResizedBytes(image: Bytes, toStandby: bool)
    requires BASE_SIZE <= |image| < 0x1_0000_0000
    ensures var r := Resized(image, toStandby);
            && Get(r, 0) == Get(image, 0) && Get(r, 1) == Get(image, 1) && Get(r, 2) == |image|
            && Get(r, 3) == (if toStandby then STANDBY else Get(image, 3))
            && forall k :: (if toStandby then 16 else 12) <= k < |r| ==> r[k] == image[k]
  {
    var sized := Put(image, LENGTH_AT, |image|);
    GetPut(image, LENGTH_AT, |image|);
    GetPut(sized, POWER_AT, STANDBY);
  }

  /** What loading makes of a usable version 1 file. */
  lemma LoadedImage(build: Build, file: Bytes, memory: Bytes, g: Globals, toStandby: bool)
    requires |memory| == Size(build) && UsableNew(file, |memory|)
    ensures var found := Fetched(file, memory); var n := Get(file, 2);
            Loaded(build, file, memory, g, toStandby, true)
            == Resized(if n < |memory| then WithGlobals(build, found, g) else found, toStandby && n <= |memory|)
  {
    UsableExactly(file, |memory|);
    if PathOf(file, |memory|) == Equal {
      EqualFetched(file, memory);
      PutGot(Fetched(file, memory), LENGTH_AT);
    }
  }

  lemma FetchedWords(file: Bytes, memory: Bytes)
    requires |memory| >= BASE_SIZE && UsableNew(file, |memory|)
    ensures forall i: nat :: i < 3 ==> Get(Fetched(file, memory), i) == Get(file, i)
  {
    UsableExactly(file, |memory|);
    FetchedGot(file, memory, MAGIC_AT);
    FetchedGot(file, memory, VERSION_AT);
    FetchedGot(file, memory, LENGTH_AT);
  }

  /** A usable version 1 file that can be migrated: the words of the header. */
  lemma LoadedHeader(build: Build, file: Bytes, memory: Bytes, g: Globals, toStandby: bool)
    requires |memory| == Size(build) && UsableNew(file, |memory|)
    ensures var r := Loaded(build, file, memory, g, toStandby, true); var n := Get(file, 2);
            && Get(r, 0) == Get(file, 0) && Get(r, 1) == 1 && Get(r, 2) == |memory|
            && (toStandby && n <= |memory| ==> Get(r, 3) == 1)
  {
    var found := Fetched(file, memory);
    FetchedWords(file, memory);
    GlobalsKeep(build, found, g);
    LoadedImage(build, file, memory, g, toStandby);
    ResizedBytes(if Get(file, 2) < |memory| then WithGlobals(build, found, g) else found,
                 toStandby && Get(file, 2) <= |memory|);
  }

  /** The added fields of a shorter file hold the globals. */
  lemma LoadedGlobals(build: Build, file: Bytes, memory: Bytes, g: Globals, toStandby: bool)
    requires |memory| == Size(build) && UsableNew(file, |memory|) && Get(file, 2) < |memory|
    ensures HoldsGlobals(build, Loaded(build, file, memory, g, toStandby, true), g)
  {
    var filled := WithGlobals(build, Fetched(file, memory), g);
    LoadedImage(build, file, memory, g, toStandby);
    ResizedBytes(filled, toStandby);
    AddedBytes(build, Fetched(file, memory), g);
    var r := Loaded(build, file, memory, g, toStandby, true);
    assert build.deepSleep ==> r[24..28] == filled[24..28];
  }

  /** All other bytes behind the header are what was read, but for the power word of a box that boots to standby. */
  lemma LoadedBytes(build: Build, file: Bytes, memory: Bytes, g: Globals, toStandby: bool, k: nat)
    requires |memory| == Size(build) && UsableNew(file, |memory|) && 12 <= k < |memory|
    requires k >= 16 || !toStandby || Get(file, 2) > |memory|
    requires Get(file, 2) < |memory| ==> !Added(build, k)
    ensures Loaded(build, file, memory, g, toStandby, true)[k] == ByteRead(file, memory, k, Get(file, 2))
  {
    var found, n := Fetched(file, memory), Get(file, 2);
    LoadedImage(build, file, memory, g, toStandby);
    ResizedBytes(if n < |memory| then WithGlobals(build, found, g) else found, toStandby && n <= |memory|);
    AddedBytes(build, found, g);
    FetchedByte(file, memory, k);
  }

  lemma HeadedByte(image: Bytes, magic: Word, power: Word, k: nat)
    requires BASE_SIZE <= |image| < 0x1_0000_0000 && 16 <= k < |image|
    ensures WithHeader(image, magic, power)[k] == image[k]
  {
    HeaderBytes(image, magic, power);
    assert WithHeader(image, magic, power)[k] == image[4 * POWER_AT + 4..][k - 16];
  }

  /** New settings: the header, the globals, and behind them what the reads left. */
  lemma CreatedBytes(build: Build, image: Bytes, g: Globals, toStandby: bool, k: nat)
    requires |image| == Size(build) && 16 <= k < |image|
    ensures var r := Created(build, image, g, toStandby);
            && Get(r, 0) == 0xFEBEEFAC && Get(r, 1) == 1 && Get(r, 2) == |image|
            && Get(r, 3) == (if toStandby then 1 else 2)
            && HoldsGlobals(build, r, g) && (!Added(build, k) ==> r[k] == image[k])
  {
    var power := if toStandby then STANDBY else ON;
    var headed := WithHeader(image, MAGIC, power);
    HeaderGot(image, MAGIC, power);
    HeadedByte(image, MAGIC, power, k);
    GlobalsKeep(build, headed, g);
    AddedBytes(build, headed, g);
  }

  lemma UnwritableImage(build: Build, file: Bytes, memory: Bytes, g: Globals, toStandby: bool)
    requires |memory| == Size(build) && UsableNew(file, |memory|) && Get(file, 2) != |memory|
    ensures var found := Fetched(file, memory);
            Loaded(build, file, memory, g, toStandby, false)
            == Created(build, Resized(if Get(file, 2) < |memory| then WithGlobals(build, found, g) else found, false),
                       g, toStandby)
  {
    UsableExactly(file, |memory|);
  }

  /** A migration that cannot be written ends in new settings, over what was read. */
  lemma UnwritableBytes(build: Build, file: Bytes, memory: Bytes, g: Globals, toStandby: bool, k: nat)
    requires |memory| == Size(build) && UsableNew(file, |memory|) && Get(file, 2) != |memory| && 16 <= k < |memory|
    ensures var r := Loaded(build, file, memory, g, toStandby, false);
            && Get(r, 0) == 0xFEBEEFAC && Get(r, 1) == 1 && Get(r, 2) == |memory|
            && Get(r, 3) == (if toStandby then 1 else 2)
            && HoldsGlobals(build, r, g) && (!Added(build, k) ==> r[k] == ByteRead(file, memory, k, Get(file, 2)))
  {
    var found := Fetched(file, memory);
    var filled := if Get(file, 2) < |memory| then WithGlobals(build, found, g) else found;
    UnwritableImage(build, file, memory, g, toStandby);
    CreatedBytes(build, Resized(filled, false), g, toStandby, k);
    ResizedBytes(filled, false);
    AddedBytes(build, found, g);
    FetchedByte(file, memory, k);
  }

  /** A file of the build's own length sets the globals, on its bytes. */
  lemma GlobalsFromFile(build: Build, file: Bytes, memory: Bytes, g: Globals)
    requires |memory| == Size(build) && PathOf(file, |memory|) == Equal
    ensures var after := GlobalsOf(build, Fetched(file, memory), g);
            && (if build.deepSleep then Digits(after.timeout) == file[24..28] else after.timeout == g.timeout)
            && after.network == if build.networkStandby then file[NetworkAt(build)] != 0 else g.network
  {
    EqualFetched(file, memory);
    if build.deepSleep {
      DigitsOf(file[24], file[25], file[26], file[27]);
    }
  }

  lemma OverlayTail(front: Bytes, b: Bytes)
    ensures forall k :: |front| <= k < |Overlay(front, b)| ==> Overlay(front, b)[k] == b[k]
  {
  }

  lemma RewrittenBytes(build: Build, file: Bytes, memory: Bytes, g: Globals, toStandby: bool)
    requires |memory| == Size(build)
    ensures var r := Rewritten(build, file, memory, g, toStandby, true);
            && |r| == (if PathOf(file, |memory|) == Longer || |file| < |memory| then |memory| else |file|)
            && forall k :: |memory| <= k < |r| ==> r[k] == file[k]
  {
    OverlayTail(Loaded(build, file, memory, g, toStandby, true), file);
  }

  /** The file afterwards: unchanged if it cannot be written; otherwise only a longer one loses its end, and behind
      the settings nothing else changes. */
  lemma FileBytes(build: Build, file: Bytes, memory: Bytes, g: Globals, toStandby: bool, writable: bool,
                  platform: Platform)
    requires |memory| == Size(build) && Complete(platform)
    ensures var after := FileAfter(build, file, memory, g, toStandby, writable, platform);
            && (!writable ==> after == file)
            && (writable ==>
                  |after| == if PathOf(file, |memory|) == Longer || |file| < |memory| then |memory| else |file|)
            && (forall k :: |memory| <= k < |after| ==> after[k] == file[k])
  {
    if writable {
      RewrittenBytes(build, file, memory, g, toStandby);
      OverlayTail(Initialised(build, file, memory, g, toStandby, true, platform),
                  Rewritten(build, file, memory, g, toStandby, true));
    }
  }

  /** The states of the platform, one after each attempt. */
  function States(p: Platform): seq<Word>
    requires p.Answers?
  {
    [p.state] + p.after
  }

  /** The settings follow the platform's state after the last attempt, the first that succeeds or the tenth. */
  lemma SyncedExactly(p: Platform, wanted: Word) returns (k: nat)
    requires Complete(p) && p.Answers?
    ensures k <= 10 && |States(p)| == 11 && Synced(p, wanted) == States(p)[k]
    ensures forall j :: 0 <= j < k ==> States(p)[j] != wanted
    ensures k < 10 ==> States(p)[k] == wanted
  {
    k := 0;
    while k < 10 && States(p)[k] != wanted
      invariant k <= 10 && forall j :: 0 <= j < k ==> States(p)[j] != wanted
    {
      k := k + 1;
    }
    if wanted in p.after {
      var j :| 0 <= j < 10 && p.after[j] == wanted;
      assert States(p)[j + 1] == wanted;
    }
    assert k > 0 ==> States(p)[k] == p.after[k - 1];
  }
}
