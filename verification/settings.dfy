/** Loading, migrating and writing the settings file (power/pwrMgr.c). */
module Settings {
  import opened SettingsImage

  const MAGIC: Word := 0xFEBEEFAC
  const HEADER := 12
  const OLD_SIZE := 16
  const BASE_SIZE := 24
  const SYNC_ATTEMPTS := 10

  // Word numbers in the image
  const MAGIC_AT := 0
  const VERSION_AT := 1
  const LENGTH_AT := 2
  const POWER_AT := 3
  const BRIGHTNESS_AT := 4
  const COLOR_AT := 5
  const TIMEOUT_AT := 6

  const OFF: Word := 0
  const STANDBY: Word := 1
  const ON: Word := 2

  /** The power states of the version 0 file. */
  const OLD_OFF: Word := 0

  /** The compile-time options that add fields: a deep-sleep timeout, a network standby flag. */
  datatype Build = Build(deepSleep: bool, networkStandby: bool)

  /** The persistent part of the structure, without the padding. */
  function Size(build: Build): (n: nat)
    ensures BASE_SIZE <= n <= 32 && n % 4 == 0
  {
    BASE_SIZE + (if build.deepSleep then 4 else 0) + (if build.networkStandby then 4 else 0)
  }

  function NetworkAt(build: Build): nat { BASE_SIZE + if build.deepSleep then 4 else 0 }

  /** The two settings that are also kept in globals. */
  datatype Globals = Globals(timeout: Word, network: bool)

  /** How a file is taken, from its content alone. Fresh means it is unusable and settings start anew. */
  datatype Path = Fresh | Old | Equal | Shorter | Longer

  function PathOf(file: Bytes, size: nat): Path {
    if |file| < HEADER then Fresh
    else if Get(file, VERSION_AT) == 0 then if |file| >= OLD_SIZE then Old else Fresh
    else if Get(file, VERSION_AT) != 1 then Fresh
    else if Get(file, LENGTH_AT) == size then if |file| >= size then Equal else Fresh
    else if Get(file, LENGTH_AT) < size then if |file| >= Get(file, LENGTH_AT) then Shorter else Fresh
    else if |file| >= size then Longer else Fresh
  }

  /** An image that the current build can read back. */
  predicate Current(image: Bytes, size: nat) {
    |image| >= size >= BASE_SIZE && Get(image, VERSION_AT) == 1 && Get(image, LENGTH_AT) == size
  }

  function Take(file: Bytes, n: nat): Bytes { if |file| < n then file else file[..n] }

  function WithGlobals(build: Build, image: Bytes, g: Globals): (r: Bytes)
    requires |image| == Size(build)
    ensures |r| == |image|
  {
    var timed := if build.deepSleep then Put(image, TIMEOUT_AT, g.timeout) else image;
    if build.networkStandby then timed[NetworkAt(build) := if g.network then 1 else 0] else timed
  }

  function GlobalsOf(build: Build, image: Bytes, g: Globals): Globals
    requires |image| == Size(build)
  {
    Globals(if build.deepSleep then Get(image, TIMEOUT_AT) else g.timeout,
            if build.networkStandby then image[NetworkAt(build)] != 0 else g.network)
  }

  function WithHeader(image: Bytes, magic: Word, power: Word): (r: Bytes)
    requires |image| >= BASE_SIZE && |image| < 0x1_0000_0000
    ensures |r| == |image|
  {
    Put(Put(Put(Put(image, MAGIC_AT, magic), VERSION_AT, 1), LENGTH_AT, |image|), POWER_AT, power)
  }

  function Converted(oldPower: Word): Word { if oldPower == OLD_OFF then OFF else ON }

  /** New settings on top of whatever bytes the image holds. */
  function Created(build: Build, image: Bytes, g: Globals, toStandby: bool): (r: Bytes)
    requires |image| == Size(build)
    ensures |r| == |image|
  {
    WithGlobals(build, WithHeader(image, MAGIC, if toStandby then STANDBY else ON), g)
  }

  /** What the reads leave in memory before anything is set. */
  function Fetched(file: Bytes, memory: Bytes): (r: Bytes)
    requires |memory| >= BASE_SIZE
    ensures |r| == |memory|
  {
    if |file| >= HEADER && Get(file, VERSION_AT) == 1 then
      var length := Get(file, LENGTH_AT);
      Overlay(Take(file, if length < HEADER then HEADER else if length < |memory| then length else |memory|), memory)
    else Overlay(Take(file, HEADER), memory)
  }

  /** The power state found in the file, if it is usable. */
  function FoundPower(file: Bytes, memory: Bytes): Word
    requires |memory| >= BASE_SIZE && PathOf(file, |memory|) != Fresh
  {
    if PathOf(file, |memory|) == Old then Converted(Get(file, POWER_AT)) else Get(Fetched(file, memory), POWER_AT)
  }

  /** A version 0 file with all its words, a version 1 file with all the bytes that both sides know. */
  predicate UsableOld(file: Bytes) { |file| >= 16 && Get(file, 1) == 0 }

  predicate UsableNew(file: Bytes, size: nat) {
    |file| >= 12 && Get(file, 1) == 1 && |file| >= if Get(file, 2) < size then Get(file, 2) else size
  }

  /** The bytes of the power word: those that the file covers come from the file. */
  function PowerBytes(file: Bytes, memory: Bytes): Bytes
    requires |file| >= 12 && |memory| >= BASE_SIZE && UsableNew(file, |memory|)
  {
    seq(4, k requires 0 <= k < 4 => if 12 + k < Get(file, 2) then file[12 + k] else memory[12 + k])
  }

  /** What becomes of the last known power state, on the words of the file. */
  ghost predicate LastKnownIs(file: Bytes, memory: Bytes, before: Word, after: Word)
    requires |memory| >= BASE_SIZE
  {
    && (UsableOld(file) ==> after == if Get(file, 3) == 0 then 0 else 2)
    && (UsableNew(file, |memory|) ==> Digits(after) == PowerBytes(file, memory))
    && (UsableNew(file, |memory|) && Get(file, 2) >= 16 ==> after == Get(file, 3))
    && (!UsableOld(file) && !UsableNew(file, |memory|) ==> after == before)
  }

  /** The settings in memory once the file has been taken. A migration that cannot be written is replaced
      by new settings. */
  function Loaded(build: Build, file: Bytes, memory: Bytes, g: Globals, toStandby: bool, writable: bool): (r: Bytes)
    requires |memory| == Size(build)
    ensures |r| == |memory|
  {
    var found := Fetched(file, memory);
    match PathOf(file, |memory|)
    case Fresh => Created(build, found, g, toStandby)
    case Old => WithGlobals(build, WithHeader(found, MAGIC, Converted(Get(file, POWER_AT))), g)
    case Equal => if toStandby then Put(found, POWER_AT, STANDBY) else found
    case Shorter =>
      var migrated := Put(WithGlobals(build, found, g), LENGTH_AT, |memory|);
      if writable then if toStandby then Put(migrated, POWER_AT, STANDBY) else migrated
      else Created(build, migrated, g, toStandby)
    case Longer =>
      if writable then Put(found, LENGTH_AT, |memory|)
      else Created(build, Put(found, LENGTH_AT, |memory|), g, toStandby)
  }

  /** The file once it has been taken. Only the path for a longer file cuts it. */
  function Rewritten(build: Build, file: Bytes, memory: Bytes, g: Globals, toStandby: bool, writable: bool): Bytes
    requires |memory| == Size(build)
  {
    var path := PathOf(file, |memory|);
    var loaded := Loaded(build, file, memory, g, toStandby, writable);
    if !writable || path == Equal then file
    else if path == Longer then loaded
    else Overlay(loaded, file)
  }

  /** What the platform answers: nothing, or its state and its states after the attempts to change it. */
  datatype Platform = Silent | Answers(state: Word, after: seq<Word>)

  predicate Complete(p: Platform) { p.Answers? ==> |p.after| == SYNC_ATTEMPTS }

  /** The power state the box ends up in: the wanted one if the platform reaches it, else the platform's. */
  function Synced(p: Platform, wanted: Word): Word
    requires Complete(p)
  {
    if p.Silent? || p.state == wanted || wanted in p.after then wanted else p.after[SYNC_ATTEMPTS - 1]
  }

  /** The settings after initialisation: the loaded ones, with the platform's say on the power state. */
  function Initialised(build: Build, file: Bytes, memory: Bytes, g: Globals, toStandby: bool, writable: bool,
                       platform: Platform): (r: Bytes)
    requires |memory| == Size(build) && Complete(platform)
    ensures |r| == |memory|
  {
    var loaded := Loaded(build, file, memory, g, toStandby, writable);
    Put(loaded, POWER_AT, Synced(platform, Get(loaded, POWER_AT)))
  }

  /** The file after initialisation. A platform that answers has the settings written once more. */
  function FileAfter(build: Build, file: Bytes, memory: Bytes, g: Globals, toStandby: bool, writable: bool,
                     platform: Platform): Bytes
    requires |memory| == Size(build) && Complete(platform)
  {
    var rewritten := Rewritten(build, file, memory, g, toStandby, writable);
    if platform.Answers? && writable
    then Overlay(Initialised(build, file, memory, g, toStandby, writable, platform), rewritten)
    else rewritten
  }

  // Writing words over words

  lemma DigitOf(p: Byte, n: nat)
    ensures (p as int + 0x100 * n) / 0x100 == n && (p as int + 0x100 * n) % 0x100 == p
  {
  }

  lemma DigitsOf(p: Byte, q: Byte, r: Byte, s: Byte)
    ensures Digits(p as int + 0x100 * q as int + 0x1_0000 * r as int + 0x100_0000 * s as int) == [p, q, r, s]
  {
    DigitOf(p, q + 0x100 * r as int + 0x1_0000 * s as int);
    DigitOf(q, r + 0x100 * s as int);
    DigitOf(r, s);
  }

  lemma PutAt(b: Bytes, i: nat, w: Word)
    requires 4 * i + 4 <= |b|
    ensures forall k :: 0 <= k < |b| ==>
              Put(b, i, w)[k] == if 4 * i <= k < 4 * i + 4 then Digits(w)[k - 4 * i] else b[k]
  {
  }

  lemma PutGot(b: Bytes, i: nat)
    requires 4 * i + 4 <= |b|
    ensures Put(b, i, Get(b, i)) == b
  {
    DigitsOf(b[4 * i], b[4 * i + 1], b[4 * i + 2], b[4 * i + 3]);
    PutAt(b, i, Get(b, i));
  }

  lemma PutSwap(b: Bytes, i: nat, v: Word, j: nat, w: Word)
    requires i != j && 4 * i + 4 <= |b| && 4 * j + 4 <= |b|
    ensures Put(Put(b, i, v), j, w) == Put(Put(b, j, w), i, v)
  {
    PutAt(b, i, v);
    PutAt(Put(b, i, v), j, w);
    PutAt(b, j, w);
    PutAt(Put(b, j, w), i, v);
    var x, y := Put(Put(b, i, v), j, w), Put(Put(b, j, w), i, v);
    assert |x| == |y| && forall k :: 0 <= k < |b| ==> x[k] == y[k];
  }

  lemma PutAround(b: Bytes, i: nat, w: Word)
    requires 4 * i + 4 <= |b|
    ensures Put(b, i, w)[..4 * i + 4] == b[..4 * i] + Digits(w)
    ensures Put(b, i, w)[4 * i + 4..] == b[4 * i + 4..]
  {
  }

  lemma HeaderBytes(image: Bytes, magic: Word, power: Word)
    requires BASE_SIZE <= |image| < 0x1_0000_0000
    ensures WithHeader(image, magic, power)
            == Digits(magic) + Digits(1) + Digits(|image|) + Digits(power) + image[4 * POWER_AT + 4..]
  {
    var a := Put(image, MAGIC_AT, magic);
    var b := Put(a, VERSION_AT, 1);
    var c := Put(b, LENGTH_AT, |image|);
    PutAround(image, MAGIC_AT, magic);
    PutAround(a, VERSION_AT, 1);
    PutAround(b, LENGTH_AT, |image|);
    PutAround(c, POWER_AT, power);
    assert [] + Digits(magic) == Digits(magic) && image[..0] == [];
    assert b[8..] == a[4..][4..] && c[12..] == b[8..][4..];
    var d := Put(c, POWER_AT, power);
    assert d == d[..16] + d[16..];
    assert c[16..] == image[16..];
  }

  /** The header covers what the first four words held before. */
  lemma HeaderOver(image: Bytes, j: nat, w: Word)
    requires BASE_SIZE <= |image| < 0x1_0000_0000 && j <= POWER_AT
    ensures forall magic: Word, power: Word ::
              WithHeader(Put(image, j, w), magic, power) == WithHeader(image, magic, power)
  {
    forall magic: Word, power: Word
      ensures WithHeader(Put(image, j, w), magic, power) == WithHeader(image, magic, power)
    {
      HeaderBytes(image, magic, power);
      HeaderBytes(Put(image, j, w), magic, power);
    }
  }

  lemma CreatedOver(build: Build, image: Bytes, j: nat, w: Word, g: Globals, toStandby: bool)
    requires |image| == Size(build) && j <= POWER_AT
    ensures Created(build, Put(image, j, w), g, toStandby) == Created(build, image, g, toStandby)
  {
    HeaderOver(image, j, w);
  }

  // The bytes that reading leaves

  /** The header is in memory already. */
  predicate HeaderRead(file: Bytes, memory: Bytes) {
    |file| >= HEADER && |memory| >= BASE_SIZE && memory[..HEADER] == file[..HEADER]
  }

  lemma OverlayNothing(file: Bytes, memory: Bytes)
    requires HeaderRead(file, memory)
    ensures Overlay(Take(file, HEADER), memory) == memory
  {
    assert memory == memory[..HEADER] + memory[HEADER..];
  }

  lemma HeaderAgain(file: Bytes, memory: Bytes)
    requires |memory| >= BASE_SIZE && |file| >= HEADER
    ensures HeaderRead(file, Overlay(Take(file, HEADER), memory))
  {
    var r := Overlay(Take(file, HEADER), memory);
    assert forall k :: 0 <= k < HEADER ==> r[k] == file[k];
  }

  lemma HeaderWords(file: Bytes, memory: Bytes)
    requires HeaderRead(file, memory)
    ensures forall i: nat :: i < 3 ==> Get(memory, i) == Get(file, i)
  {
    assert forall k :: 0 <= k < HEADER ==> memory[..HEADER][k] == file[..HEADER][k];
  }

  lemma OverlayOver(a: Bytes, b: Bytes, memory: Bytes)
    requires |b| <= |a| && |b| <= |memory|
    ensures Overlay(a, Overlay(b, memory)) == Overlay(a, memory)
  {
  }

  /** Reading more of the file hides that the header was read before. */
  lemma FetchedAgain(file: Bytes, memory: Bytes)
    requires |memory| >= BASE_SIZE
    ensures Fetched(file, Overlay(Take(file, HEADER), memory)) == Fetched(file, memory)
  {
    var n := if |file| >= HEADER && Get(file, VERSION_AT) == 1 && Get(file, LENGTH_AT) > HEADER
             then if Get(file, LENGTH_AT) < |memory| then Get(file, LENGTH_AT) else |memory| else HEADER;
    OverlayOver(Take(file, n), Take(file, HEADER), memory);
  }

  /** Having read the header already makes no difference. */
  lemma LoadedAgain(build: Build, file: Bytes, memory: Bytes, g: Globals, toStandby: bool, writable: bool)
    requires |memory| == Size(build)
    ensures var read := Overlay(Take(file, HEADER), memory);
            && Loaded(build, file, read, g, toStandby, writable) == Loaded(build, file, memory, g, toStandby, writable)
            && Rewritten(build, file, read, g, toStandby, writable)
               == Rewritten(build, file, memory, g, toStandby, writable)
            && (PathOf(file, |memory|) != Fresh ==> FoundPower(file, read) == FoundPower(file, memory))
  {
    FetchedAgain(file, memory);
  }

  /** Reading up to n bytes again, after the header. */
  lemma ReadMore(file: Bytes, memory: Bytes, n: nat)
    requires HeaderRead(file, memory) && n <= |memory|
    ensures Overlay(Take(file, n), memory) == Overlay(Take(file, if n < HEADER then HEADER else n), memory)
  {
    var m := if n < HEADER then HEADER else n;
    var a, b := Overlay(Take(file, n), memory), Overlay(Take(file, m), memory);
    assert forall k :: 0 <= k < HEADER ==> memory[..HEADER][k] == file[..HEADER][k];
    assert |a| == |b|;
    assert forall k :: 0 <= k < |a| ==> a[k] == b[k];
  }

  /** What loading comes to for a version 1 file that says it is shorter. */
  lemma LoadedShorter(build: Build, file: Bytes, memory: Bytes, g: Globals, toStandby: bool)
    requires |memory| == Size(build) && |file| >= HEADER
    requires Get(file, VERSION_AT) == 1 && Get(file, LENGTH_AT) < |memory|
    ensures var found := Fetched(file, memory);
            var migrated := Put(WithGlobals(build, found, g), LENGTH_AT, |memory|);
            if |file| >= Get(file, LENGTH_AT) then
              && PathOf(file, |memory|) == Shorter && FoundPower(file, memory) == Get(found, POWER_AT)
              && Loaded(build, file, memory, g, toStandby, true)
                 == (if toStandby then Put(migrated, POWER_AT, STANDBY) else migrated)
              && Loaded(build, file, memory, g, toStandby, false) == Created(build, migrated, g, toStandby)
            else
              PathOf(file, |memory|) == Fresh
              && forall w: bool :: Loaded(build, file, memory, g, toStandby, w) == Created(build, found, g, toStandby)
  {
  }

  lemma UsableExactly(file: Bytes, size: nat)
    requires size >= BASE_SIZE
    ensures PathOf(file, size) == Old <==> UsableOld(file)
    ensures PathOf(file, size) in {Equal, Shorter, Longer} <==> UsableNew(file, size)
  {
  }

  lemma FetchedPower(file: Bytes, memory: Bytes)
    requires |memory| >= BASE_SIZE && UsableNew(file, |memory|)
    ensures Fetched(file, memory)[12..16] == PowerBytes(file, memory)
    ensures Get(file, 2) >= 16 ==> Get(Fetched(file, memory), POWER_AT) == Get(file, 3)
  {
  }

  lemma FoundPowerIs(file: Bytes, memory: Bytes, before: Word)
    requires |memory| >= BASE_SIZE
    ensures LastKnownIs(file, memory, before,
                        if PathOf(file, |memory|) == Fresh then before else FoundPower(file, memory))
  {
    UsableExactly(file, |memory|);
    if UsableNew(file, |memory|) {
      var r := Fetched(file, memory);
      FetchedPower(file, memory);
      DigitsOf(r[12], r[13], r[14], r[15]);
      assert r[12..16] == [r[12], r[13], r[14], r[15]];
    }
  }

  class Store {
    const build: Build
    var memory: Bytes
    var file: Bytes
    var globals: Globals
    var lastKnown: Word

    ghost predicate Valid()
      reads this
    {
      |memory| == Size(build)
    }

    constructor (build: Build, file: Bytes, globals: Globals, lastKnown: Word)
      ensures Valid() && this.build == build && this.file == file && this.globals == globals
      ensures forall k :: 0 <= k < |memory| ==> memory[k] == 0
      ensures this.lastKnown == lastKnown
    {
      this.build, this.file, this.globals, this.lastKnown := build, file, globals, lastKnown;
      memory := seq(Size(build), _ => 0);
    }

    /** The read system call into the front of the settings. */
    method Read(n: nat) returns (count: nat)
      requires Valid() && n <= |memory|
      modifies this`memory
      ensures Valid() && count == |Take(file, n)| && memory == Overlay(Take(file, n), old(memory))
    {
      var got := Take(file, n);
      memory := Overlay(got, memory);
      count := |got|;
    }

    /** The write system call from the start of the file. */
    method Write(writable: bool) returns (done: bool)
      requires Valid()
      modifies this`file
      ensures done == writable && file == if writable then Overlay(memory, old(file)) else old(file)
    {
      if writable {
        file := Overlay(memory, file);
      }
      done := writable;
    }

    method SetHeader(magic: Word, power: Word)
      requires Valid()
      modifies this`memory
      ensures Valid() && memory == WithHeader(old(memory), magic, power)
    {
      memory := Put(memory, MAGIC_AT, magic);
      memory := Put(memory, VERSION_AT, 1);
      memory := Put(memory, LENGTH_AT, |memory|);
      memory := Put(memory, POWER_AT, power);
    }

    method SetPower(power: Word)
      requires Valid()
      modifies this`memory
      ensures Valid() && memory == Put(old(memory), POWER_AT, power)
    {
      memory := Put(memory, POWER_AT, power);
    }

    /** The fields that a file of another size does not carry. */
    method FillNewFields()
      requires Valid()
      modifies this`memory
      ensures Valid() && memory == WithGlobals(build, old(memory), globals)
    {
      if build.deepSleep {
        memory := Put(memory, TIMEOUT_AT, globals.timeout);
      }
      if build.networkStandby {
        memory := memory[NetworkAt(build) := if globals.network then 1 else 0];
      }
    }

    method Create(toStandby: bool, writable: bool)
      requires Valid()
      modifies this`memory, this`file
      ensures Valid() && memory == Created(build, old(memory), globals, toStandby)
      ensures file == if writable then Overlay(memory, old(file)) else old(file)
    {
      SetHeader(MAGIC, if toStandby then STANDBY else ON);
      FillNewFields();
      var _ := Write(writable);
    }

    /** A version 0 file. On failure too few bytes could be read. */
    method LoadOld(writable: bool) returns (ok: bool)
      requires Valid() && HeaderRead(file, memory) && Get(file, VERSION_AT) == 0
      modifies this`memory, this`file, this`lastKnown
      ensures Valid() && ok == (PathOf(old(file), Size(build)) == Old)
      ensures !ok ==> file == old(file) && lastKnown == old(lastKnown)
                      && memory == Put(old(memory), LENGTH_AT, OLD_SIZE)
      ensures ok ==> lastKnown == FoundPower(old(file), old(memory))
                     && memory == Loaded(build, old(file), old(memory), globals, false, writable)
                     && file == if writable then Overlay(memory, old(file)) else old(file)
    {
      OverlayNothing(file, memory);
      HeaderOver(memory, LENGTH_AT, OLD_SIZE);
      memory := Put(memory, LENGTH_AT, OLD_SIZE);
      var got := Take(file, OLD_SIZE);
      ok := |got| == OLD_SIZE;
      if ok {
        GetOverlay(got, file, POWER_AT);
        var power := Converted(Get(got, POWER_AT));
        SetHeader(MAGIC, power);
        lastKnown := power;
        FillNewFields();
        var _ := Write(writable);
      }
    }

    /** A version 1 file of this build's length. Nothing is written. */
    method LoadEqual(toStandby: bool) returns (ok: bool)
      requires Valid() && HeaderRead(file, memory)
      requires Get(file, VERSION_AT) == 1 && Get(file, LENGTH_AT) == |memory|
      modifies this`memory, this`globals, this`lastKnown
      ensures Valid() && ok == (PathOf(file, Size(build)) == Equal)
      ensures !ok ==> lastKnown == old(lastKnown) && globals == old(globals) && memory == Fetched(file, old(memory))
      ensures ok ==> lastKnown == FoundPower(file, old(memory)) == Get(file, POWER_AT)
                     && globals == GlobalsOf(build, Fetched(file, old(memory)), old(globals))
                     && memory == Loaded(build, file, old(memory), old(globals), toStandby, true)
    {
      HeaderWords(file, memory);
      var size := Get(memory, LENGTH_AT);
      var count := Read(size);
      ok := count == size;
      if ok {
        lastKnown := Get(memory, POWER_AT);
        globals := GlobalsOf(build, memory, globals);
        if toStandby {
          SetPower(STANDBY);
        }
      }
    }

    method Migrate(toStandby: bool)
      requires Valid()
      modifies this`memory
      ensures Valid()
      ensures var migrated := Put(WithGlobals(build, old(memory), globals), LENGTH_AT, Size(build));
              && memory == (if toStandby then Put(migrated, POWER_AT, STANDBY) else migrated)
              && Created(build, memory, globals, toStandby) == Created(build, migrated, globals, toStandby)
    {
      FillNewFields();
      if toStandby {
        PutSwap(memory, POWER_AT, STANDBY, LENGTH_AT, |memory|);
        CreatedOver(build, Put(memory, LENGTH_AT, |memory|), POWER_AT, STANDBY, globals, toStandby);
        SetPower(STANDBY);
      }
      memory := Put(memory, LENGTH_AT, |memory|);
    }

    method MigrateAndWrite(toStandby: bool, writable: bool) returns (ok: bool)
      requires Valid()
      modifies this`memory, this`file, this`lastKnown
      ensures Valid() && ok == writable && lastKnown == Get(old(memory), POWER_AT)
      ensures file == if writable then Overlay(memory, old(file)) else old(file)
      ensures var migrated := Put(WithGlobals(build, old(memory), globals), LENGTH_AT, Size(build));
              && memory == (if toStandby then Put(migrated, POWER_AT, STANDBY) else migrated)
              && Created(build, memory, globals, toStandby) == Created(build, migrated, globals, toStandby)
    {
      lastKnown := Get(memory, POWER_AT);
      Migrate(toStandby);
      ok := Write(writable);
    }

    /** A version 1 file of an older build: the missing fields come from the globals. */
    method LoadShorter(toStandby: bool, writable: bool) returns (ok: bool)
      requires Valid() && HeaderRead(file, memory)
      requires Get(file, VERSION_AT) == 1 && Get(file, LENGTH_AT) < |memory|
      modifies this`memory, this`file, this`lastKnown
      ensures Valid() && ok == (writable && PathOf(old(file), Size(build)) == Shorter)
      ensures lastKnown == if PathOf(old(file), Size(build)) == Shorter then FoundPower(old(file), old(memory))
                           else old(lastKnown)
      ensures file == if ok then Overlay(memory, old(file)) else old(file)
      ensures ok ==> memory == Loaded(build, old(file), old(memory), globals, toStandby, true)
      ensures !ok ==> Created(build, memory, globals, toStandby)
                      == Loaded(build, old(file), old(memory), globals, toStandby, writable)
    {
      HeaderWords(file, memory);
      LoadedShorter(build, file, memory, globals, toStandby);
      var size := Get(memory, LENGTH_AT);
      ReadMore(file, memory, size);
      var count := Read(size);
      assert memory == Fetched(file, old(memory));
      ok := count == size;
      if ok {
        ok := MigrateAndWrite(toStandby, writable);
      }
    }

    /** A version 1 file of a newer build: what it has beyond this build's settings is cut off. */
    method LoadLonger(writable: bool) returns (ok: bool)
      requires Valid() && HeaderRead(file, memory)
      requires Get(file, VERSION_AT) == 1 && Get(file, LENGTH_AT) > |memory|
      modifies this`memory, this`file, this`lastKnown
      ensures Valid() && ok == (writable && PathOf(old(file), Size(build)) == Longer)
      ensures lastKnown == if PathOf(old(file), Size(build)) == Longer then FoundPower(old(file), old(memory))
                           else old(lastKnown)
      ensures file == if ok then memory else old(file)
      ensures ok ==> memory == Loaded(build, old(file), old(memory), globals, false, true)
      ensures !ok ==>
                forall toStandby: bool ::
                  Created(build, memory, globals, toStandby)
                  == Loaded(build, old(file), old(memory), globals, toStandby, writable)
    {
      HeaderWords(file, memory);
      var count := Read(|memory|);
      ok := count == |memory|;
      if ok {
        lastKnown := Get(memory, POWER_AT);
        memory := Put(memory, LENGTH_AT, |memory|);
        ok := Write(writable);
        if ok {
          file := file[..|memory|];
        }
      }
    }

    /** The cases on the version and the length once the header is in memory. */
    method LoadVersion(toStandby: bool, writable: bool) returns (ok: bool)
      requires Valid() && HeaderRead(file, memory)
      modifies this
      ensures Valid()
      ensures ok ==> memory == Loaded(build, old(file), old(memory), old(globals), toStandby, writable)
      ensures ok ==> file == Rewritten(build, old(file), old(memory), old(globals), toStandby, writable)
      ensures !ok ==> file == old(file) && PathOf(file, Size(build)) != Equal
                      && (writable ==> PathOf(file, Size(build)) == Fresh)
      ensures !ok ==> Created(build, memory, globals, toStandby)
                      == Loaded(build, old(file), old(memory), old(globals), toStandby, writable)
      ensures lastKnown == if PathOf(old(file), Size(build)) == Fresh then old(lastKnown)
                           else FoundPower(old(file), old(memory))
      ensures globals == if PathOf(old(file), Size(build)) == Equal
                         then GlobalsOf(build, Fetched(old(file), old(memory)), old(globals)) else old(globals)
    {
      ok := false;
      HeaderWords(file, memory);
      OverlayNothing(file, memory);
      if Get(memory, VERSION_AT) == 0 {
        CreatedOver(build, memory, LENGTH_AT, OLD_SIZE, globals, toStandby);
        ok := LoadOld(writable);
      } else if Get(memory, VERSION_AT) == 1 {
        if Get(memory, LENGTH_AT) == |memory| {
          ok := LoadEqual(toStandby);
        } else if Get(memory, LENGTH_AT) < |memory| {
          ok := LoadShorter(toStandby, writable);
        } else {
          ok := LoadLonger(writable);
        }
      }
    }

    /** The part of initialisation that takes the file. */
    method Load(toStandby: bool, writable: bool)
      requires Valid()
      modifies this
      ensures Valid()
      ensures memory == Loaded(build, old(file), old(memory), old(globals), toStandby, writable)
      ensures file == Rewritten(build, old(file), old(memory), old(globals), toStandby, writable)
      ensures LastKnownIs(old(file), old(memory), old(lastKnown), lastKnown)
      ensures globals == if PathOf(old(file), Size(build)) == Equal
                         then GlobalsOf(build, Fetched(old(file), old(memory)), old(globals)) else old(globals)
    {
      var ok := false;
      var count := Read(HEADER);
      FetchedAgain(file, old(memory));
      LoadedAgain(build, file, old(memory), globals, toStandby, writable);
      FoundPowerIs(file, old(memory), lastKnown);
      if count == HEADER {
        HeaderAgain(file, old(memory));
        ok := LoadVersion(toStandby, writable);
      }
      if !ok {
        Create(toStandby, writable);
      }
    }

    /** Up to ten attempts to bring the platform to the wanted state; in the end the settings follow it. */
    method Sync(platform: Platform)
      requires Valid() && Complete(platform) && platform.Answers?
      modifies this`memory
      ensures Valid() && memory == Put(old(memory), POWER_AT, Synced(platform, Get(old(memory), POWER_AT)))
    {
      var wanted := Get(memory, POWER_AT);
      PutGot(memory, POWER_AT);
      if wanted != platform.state {
        var attempts := 0;
        var state := platform.state;
        while state != wanted && attempts < SYNC_ATTEMPTS
          invariant attempts <= SYNC_ATTEMPTS && memory == old(memory)
          invariant state == if attempts == 0 then platform.state else platform.after[attempts - 1]
          invariant state != wanted ==> wanted !in platform.after[..attempts]
          decreases SYNC_ATTEMPTS - attempts
        {
          state := platform.after[attempts];
          attempts := attempts + 1;
        }
        if state != wanted {
          assert platform.after[..SYNC_ATTEMPTS] == platform.after;
          SetPower(state);
        }
      }
    }

    /** Initialisation at the start of the daemon. */
    method InitSettings(toStandby: bool, writable: bool, platform: Platform)
      requires Valid() && Complete(platform)
      modifies this
      ensures Valid()
      ensures memory == Initialised(build, old(file), old(memory), old(globals), toStandby, writable, platform)
      ensures file == FileAfter(build, old(file), old(memory), old(globals), toStandby, writable, platform)
      ensures LastKnownIs(old(file), old(memory), old(lastKnown), lastKnown)
      ensures globals == if PathOf(old(file), Size(build)) == Equal
                         then GlobalsOf(build, Fetched(old(file), old(memory)), old(globals)) else old(globals)
    {
      Load(toStandby, writable);
      PutGot(memory, POWER_AT);
      if platform.Answers? {
        Sync(platform);
        var _ := Write(writable);
      }
    }

    /** Saving the settings after a change. */
    method WriteSettings(writable: bool)
      requires Valid()
      modifies this`file
      ensures file == if writable then Overlay(memory, old(file)) else old(file)
    {
      var _ := Write(writable);
    }
  }

  // The words of the loaded settings

  lemma GlobalsKeep(build: Build, image: Bytes, g: Globals)
    requires |image| == Size(build)
    ensures forall i: nat :: i < TIMEOUT_AT ==> Get(WithGlobals(build, image, g), i) == Get(image, i)
    ensures GlobalsOf(build, WithGlobals(build, image, g), g) == g
  {
    if build.deepSleep {
      GetPut(image, TIMEOUT_AT, g.timeout);
    }
    assert build.networkStandby && build.deepSleep ==> NetworkAt(build) == 4 * TIMEOUT_AT + 4;
  }

  lemma HeaderGot(image: Bytes, magic: Word, power: Word)
    requires BASE_SIZE <= |image| < 0x1_0000_0000
    ensures var r := WithHeader(image, magic, power);
            && Get(r, MAGIC_AT) == magic && Get(r, VERSION_AT) == 1 && Get(r, LENGTH_AT) == |image|
            && Get(r, POWER_AT) == power
            && Get(r, BRIGHTNESS_AT) == Get(image, BRIGHTNESS_AT) && Get(r, COLOR_AT) == Get(image, COLOR_AT)
  {
    var a := Put(image, MAGIC_AT, magic);
    var b := Put(a, VERSION_AT, 1);
    var c := Put(b, LENGTH_AT, |image|);
    GetPut(image, MAGIC_AT, magic);
    GetPut(a, VERSION_AT, 1);
    GetPut(b, LENGTH_AT, |image|);
    GetPut(c, POWER_AT, power);
  }

  lemma CreatedGot(build: Build, image: Bytes, g: Globals, toStandby: bool)
    requires |image| == Size(build)
    ensures var r := Created(build, image, g, toStandby);
            && Current(r, Size(build)) && Get(r, MAGIC_AT) == MAGIC
            && Get(r, POWER_AT) == (if toStandby then STANDBY else ON) && GlobalsOf(build, r, g) == g
  {
    var power := if toStandby then STANDBY else ON;
    HeaderGot(image, MAGIC, power);
    GlobalsKeep(build, WithHeader(image, MAGIC, power), g);
  }

  /** The words of a version 1 file that is long enough, after the read of its common part. */
  lemma FetchedGot(file: Bytes, memory: Bytes, i: nat)
    requires BASE_SIZE <= |memory| && PathOf(file, |memory|) in {Equal, Shorter, Longer}
    requires i < TIMEOUT_AT && (i < 3 || 4 * i + 4 <= Get(file, LENGTH_AT))
    ensures 4 * i + 4 <= |file| && Get(Fetched(file, memory), i) == Get(file, i)
  {
  }

  /** A usable version 1 file. */
  lemma KeptGot(build: Build, file: Bytes, memory: Bytes, g: Globals, toStandby: bool)
    requires |memory| == Size(build) && PathOf(file, |memory|) in {Equal, Shorter, Longer}
    ensures var r := Loaded(build, file, memory, g, toStandby, true); var found := Fetched(file, memory);
            && Current(r, Size(build))
            && Get(r, POWER_AT) == (if toStandby && PathOf(file, |memory|) != Longer then STANDBY
                                    else Get(found, POWER_AT))
            && Get(r, BRIGHTNESS_AT) == Get(found, BRIGHTNESS_AT) && Get(r, COLOR_AT) == Get(found, COLOR_AT)
  {
    var found := Fetched(file, memory);
    FetchedGot(file, memory, VERSION_AT);
    FetchedGot(file, memory, LENGTH_AT);
    GlobalsKeep(build, found, g);
    var filled := if PathOf(file, |memory|) == Shorter then WithGlobals(build, found, g) else found;
    GetPut(filled, LENGTH_AT, |memory|);
    GetPut(Put(filled, LENGTH_AT, |memory|), POWER_AT, STANDBY);
    GetPut(found, POWER_AT, STANDBY);
  }

  lemma OldGot(build: Build, file: Bytes, memory: Bytes, g: Globals, toStandby: bool, writable: bool)
    requires |memory| == Size(build) && PathOf(file, |memory|) == Old
    ensures var r := Loaded(build, file, memory, g, toStandby, writable);
            && Current(r, Size(build)) && Get(r, POWER_AT) == Converted(Get(file, POWER_AT))
            && Get(r, BRIGHTNESS_AT) == Get(memory, BRIGHTNESS_AT) && Get(r, COLOR_AT) == Get(memory, COLOR_AT)
            && GlobalsOf(build, r, g) == g
  {
    var found := Fetched(file, memory);
    var power := Converted(Get(file, POWER_AT));
    HeaderGot(found, MAGIC, power);
    GlobalsKeep(build, WithHeader(found, MAGIC, power), g);
  }

  lemma LoadedIsCurrent(build: Build, file: Bytes, memory: Bytes, g: Globals, toStandby: bool, writable: bool)
    requires |memory| == Size(build)
    ensures Current(Loaded(build, file, memory, g, toStandby, writable), Size(build))
  {
    var found := Fetched(file, memory);
    match PathOf(file, |memory|) {
      case Fresh => CreatedGot(build, found, g, toStandby);
      case Old => OldGot(build, file, memory, g, toStandby, writable);
      case _ =>
        KeptGot(build, file, memory, g, toStandby);
        CreatedGot(build, Put(found, LENGTH_AT, |memory|), g, toStandby);
        CreatedGot(build, Put(WithGlobals(build, found, g), LENGTH_AT, |memory|), g, toStandby);
    }
  }

  lemma OverlayFront(image: Bytes, file: Bytes)
    ensures |Overlay(image, file)| >= |image| && Overlay(image, file)[..|image|] == image
  {
  }

  lemma OverlaySelf(file: Bytes, n: nat)
    requires n <= |file|
    ensures Overlay(file[..n], file) == file
  {
  }

  // Main results

  /** Whatever the file held, the settings in memory are current after initialisation. */
  lemma MemoryIsCurrent(build: Build, file: Bytes, memory: Bytes, g: Globals, toStandby: bool, writable: bool,
                        platform: Platform)
    requires |memory| == Size(build) && Complete(platform)
    ensures Current(Initialised(build, file, memory, g, toStandby, writable, platform), Size(build))
  {
    LoadedIsCurrent(build, file, memory, g, toStandby, writable);
    var loaded := Loaded(build, file, memory, g, toStandby, writable);
    GetPut(loaded, POWER_AT, Synced(platform, Get(loaded, POWER_AT)));
  }

  /** The one case in which the file does not hold what memory holds: a box that boots to standby with a
      file of the current length, on a platform that does not tell its state. */
  predicate Unsaved(build: Build, file: Bytes, toStandby: bool, platform: Platform) {
    toStandby && platform.Silent? && PathOf(file, Size(build)) == Equal && Get(file, POWER_AT) != STANDBY
  }

  lemma EqualFetched(file: Bytes, memory: Bytes)
    requires |memory| >= BASE_SIZE && PathOf(file, |memory|) == Equal
    ensures Fetched(file, memory) == file[..|memory|] && Current(file, |memory|)
    ensures Get(file[..|memory|], POWER_AT) == Get(file, POWER_AT)
  {
  }

  /** After an initialisation that can write, the file starts with the settings in memory, exactly unless
      the case above applies. */
  lemma SavedExactly(build: Build, file: Bytes, memory: Bytes, g: Globals, toStandby: bool, platform: Platform)
    requires |memory| == Size(build) && Complete(platform)
    ensures var after := FileAfter(build, file, memory, g, toStandby, true, platform);
            && |after| >= Size(build)
            && (after[..Size(build)] == Initialised(build, file, memory, g, toStandby, true, platform)
                <==> !Unsaved(build, file, toStandby, platform))
  {
    var loaded := Loaded(build, file, memory, g, toStandby, true);
    var settings := Initialised(build, file, memory, g, toStandby, true, platform);
    var rewritten := Rewritten(build, file, memory, g, toStandby, true);
    OverlayFront(settings, rewritten);
    OverlayFront(loaded, file);
    PutGot(loaded, POWER_AT);
    if platform.Silent? && PathOf(file, |memory|) == Equal {
      EqualFetched(file, memory);
      PutGot(file[..|memory|], POWER_AT);
      GetPut(file[..|memory|], POWER_AT, STANDBY);
    }
  }

  lemma FrontCurrent(file: Bytes, size: nat)
    requires BASE_SIZE <= size <= |file| && Current(file[..size], size)
    ensures Current(file, size) && PathOf(file, size) == Equal
  {
  }

  /** Whatever the file held, one initialisation that can write leaves a file that the same build reads by
      the equal-length path. */
  lemma OneBootSettles(build: Build, file: Bytes, memory: Bytes, g: Globals, toStandby: bool, platform: Platform)
    requires |memory| == Size(build) && Complete(platform)
    ensures var after := FileAfter(build, file, memory, g, toStandby, true, platform);
            Current(after, Size(build)) && PathOf(after, Size(build)) == Equal
  {
    SavedExactly(build, file, memory, g, toStandby, platform);
    MemoryIsCurrent(build, file, memory, g, toStandby, true, platform);
    var after := FileAfter(build, file, memory, g, toStandby, true, platform);
    if Unsaved(build, file, toStandby, platform) {
      EqualFetched(file, memory);
    } else {
      FrontCurrent(after, Size(build));
    }
  }

  /** The platform is in the saved power state, or does not tell. */
  predicate Agrees(platform: Platform, power: Word) { platform.Silent? || platform.state == power }

  /** A file of the current length on an agreeing platform, without boot to standby: the settings become
      exactly the file's, from any memory, and the file does not change. */
  lemma SettledBoot(build: Build, file: Bytes, memory: Bytes, g: Globals, writable: bool, platform: Platform)
    requires |memory| == Size(build) && Complete(platform)
    requires PathOf(file, Size(build)) == Equal && Agrees(platform, Get(file, POWER_AT))
    ensures Initialised(build, file, memory, g, false, writable, platform) == file[..Size(build)]
    ensures FileAfter(build, file, memory, g, false, writable, platform) == file
  {
    EqualFetched(file, memory);
    PutGot(file[..|memory|], POWER_AT);
    OverlaySelf(file, |memory|);
  }

  /** The second boot of the same build changes nothing. */
  lemma SecondBootQuiet(build: Build, file: Bytes, memory: Bytes, g: Globals, toStandby: bool, platform: Platform,
                        memory': Bytes, g': Globals, writable': bool, platform': Platform)
    requires |memory| == |memory'| == Size(build) && Complete(platform) && Complete(platform')
    requires !Unsaved(build, file, toStandby, platform)
    requires var settings := Initialised(build, file, memory, g, toStandby, true, platform);
             Agrees(platform', Get(settings, POWER_AT))
    ensures var after := FileAfter(build, file, memory, g, toStandby, true, platform);
            && FileAfter(build, after, memory', g', false, writable', platform') == after
            && Initialised(build, after, memory', g', false, writable', platform')
               == Initialised(build, file, memory, g, toStandby, true, platform)
  {
    var after := FileAfter(build, file, memory, g, toStandby, true, platform);
    SavedExactly(build, file, memory, g, toStandby, platform);
    OneBootSettles(build, file, memory, g, toStandby, platform);
    EqualFetched(after, memory');
    SettledBoot(build, after, memory', g', writable', platform');
  }

  /** Saved settings come back, over any earlier file and into any memory. */
  lemma WriteThenInit(build: Build, settings: Bytes, file: Bytes, memory: Bytes, g: Globals, writable: bool,
                      platform: Platform)
    requires |settings| == |memory| == Size(build) && Current(settings, Size(build)) && Complete(platform)
    requires Agrees(platform, Get(settings, POWER_AT))
    ensures var written := Overlay(settings, file);
            && Initialised(build, written, memory, g, false, writable, platform) == settings
            && FileAfter(build, written, memory, g, false, writable, platform) == written
            && PathOf(written, Size(build)) == Equal
  {
    var written := Overlay(settings, file);
    OverlayFront(settings, file);
    FrontCurrent(written, Size(build));
    EqualFetched(written, memory);
    SettledBoot(build, written, memory, g, writable, platform);
  }

  /** A file left by one build is taken by any other build with its power state and LED settings. */
  lemma CrossBuild(older: Build, newer: Build, file: Bytes, memory: Bytes, g: Globals)
    requires |memory| == Size(newer) && Current(file, Size(older))
    ensures PathOf(file, Size(newer)) in {Equal, Shorter, Longer}
    ensures var r := Loaded(newer, file, memory, g, false, true);
            && Current(r, Size(newer)) && Get(r, POWER_AT) == Get(file, POWER_AT)
            && Get(r, BRIGHTNESS_AT) == Get(file, BRIGHTNESS_AT) && Get(r, COLOR_AT) == Get(file, COLOR_AT)
  {
    KeptGot(newer, file, memory, g, false);
    FetchedGot(file, memory, POWER_AT);
    FetchedGot(file, memory, BRIGHTNESS_AT);
    FetchedGot(file, memory, COLOR_AT);
  }

  /** A version 0 file keeps the box off if it was off and turns it on otherwise; an unusable file turns it
      on, or puts it in standby when booting to standby. */
  lemma OtherFiles(build: Build, file: Bytes, memory: Bytes, g: Globals, toStandby: bool, writable: bool)
    requires |memory| == Size(build) && PathOf(file, Size(build)) in {Old, Fresh}
    ensures var r := Loaded(build, file, memory, g, toStandby, writable);
            && GlobalsOf(build, r, g) == g && Get(r, MAGIC_AT) == MAGIC
            && Get(r, POWER_AT) == if PathOf(file, Size(build)) == Old
                                   then (if Get(file, POWER_AT) == OLD_OFF then OFF else ON)
                                   else if toStandby then STANDBY else ON
  {
    if PathOf(file, Size(build)) == Old {
      OldGot(build, file, memory, g, toStandby, writable);
      HeaderGot(Fetched(file, memory), MAGIC, Converted(Get(file, POWER_AT)));
      GlobalsKeep(build, WithHeader(Fetched(file, memory), MAGIC, Converted(Get(file, POWER_AT))), g);
    } else {
      CreatedGot(build, Fetched(file, memory), g, toStandby);
    }
  }

  /** Exactly two different builds take each other's file without migration: those that add one field each, but
      not the same one. */
  lemma TakenAsOwnExactly(older: Build, newer: Build, file: Bytes)
    requires Current(file, Size(older))
    ensures PathOf(file, Size(newer)) == Equal <==>
            older == newer || (older.deepSleep != older.networkStandby && newer.deepSleep != newer.networkStandby)
  {
    assert Size(older) == Size(newer) <==>
           older == newer || (older.deepSleep != older.networkStandby && newer.deepSleep != newer.networkStandby);
  }

  /** The build with the flag reads the timeout of the other: on unless its lowest byte is 0. */
  lemma SameLengthDifferentField(file: Bytes, memory: Bytes, g: Globals)
    requires Current(file, Size(Build(true, false))) && |memory| == Size(Build(false, true))
    ensures var other := Build(false, true);
            && PathOf(file, Size(other)) == Equal
            && GlobalsOf(other, Fetched(file, memory), g).network == (Get(file, TIMEOUT_AT) % 0x100 != 0)
  {
    EqualFetched(file, memory);
  }

  /** The build with the timeout reads the flag of the other and the three bytes behind it. */
  lemma FlagBecomesTimeout(file: Bytes, memory: Bytes, g: Globals)
    requires Current(file, Size(Build(false, true))) && |memory| == Size(Build(true, false))
    ensures var flag, fill := file[NetworkAt(Build(false, true))], file[NetworkAt(Build(false, true)) + 1..];
            && PathOf(file, Size(Build(true, false))) == Equal
            && GlobalsOf(Build(true, false), Fetched(file, memory), g).timeout
               == flag as int + 0x100 * (fill[0] as int + 0x100 * (fill[1] as int + 0x100 * fill[2] as int))
  {
    EqualFetched(file, memory);
  }
}
