/** The five-slot table of standby settings of video ports, as a map without regard to case. */
module StandbyTable {

  const SLOTS := 5
  const NAME_SIZE := 16

  function ToLower(c: char): char {
    if 'A' <= c <= 'Z' then (c as int + 32) as char else c
  }

  /** A name without regard to case. */
  function Key(name: string): (k: string)
    ensures |k| == |name|
  {
    seq(|name|, i requires 0 <= i < |name| => ToLower(name[i]))
  }

  function Clip(name: string, n: nat): string { if |name| <= n then name else name[..n] }

  /** strncasecmp over the size of a slot finds no difference. */
  predicate Matches(name: string, slot: string) { Key(Clip(name, NAME_SIZE)) == Key(Clip(slot, NAME_SIZE)) }

  /** A name that fits a slot. */
  predicate Fits(name: string) { 0 < |name| < NAME_SIZE }

  datatype Slot = Slot(name: string, enabled: bool)

  /** What the table means: the settings by name, the number of slots in use, and the flag that stands in
      the first free slot, which only the empty name reads and writes. */
  datatype View = View(entries: map<string, bool>, used: nat, blank: bool)

  const EMPTY := View(map[], 0, false)

  predicate Setting(v: View, name: string) {
    if name == "" then v.blank else Fits(name) && Key(name) in v.entries && v.entries[Key(name)]
  }

  function Put(v: View, name: string, on: bool): View {
    if Fits(name) && Key(name) in v.entries then v.(entries := v.entries[Key(name) := on])
    else if v.used >= SLOTS then v
    else if name == "" then v.(blank := on)
    else
      // a name that does not fit is cut, and an entry behind an equal one is never seen
      var k := Key(Clip(name, NAME_SIZE - 1));
      View(if k in v.entries then v.entries else v.entries[k := on], v.used + 1, false)
  }

  // From slots to their meaning

  /** Slots in use come first; behind them is the blank one and slots never touched. */
  ghost predicate Shape(s: seq<Slot>, used: nat) {
    && |s| == SLOTS && used <= SLOTS
    && (forall i :: 0 <= i < used ==> Fits(s[i].name))
    && (forall i :: used <= i < SLOTS ==> s[i].name == "")
    && (forall i :: used < i < SLOTS ==> !s[i].enabled)
  }

  ghost function Entries(s: seq<Slot>, n: nat): map<string, bool>
    requires n <= |s|
  {
    if n == 0 then map[]
    else
      var m := Entries(s, n - 1);
      if Key(s[n - 1].name) in m then m else m[Key(s[n - 1].name) := s[n - 1].enabled]
  }

  ghost function ViewOf(s: seq<Slot>, used: nat): View
    requires Shape(s, used)
  {
    View(Entries(s, used), used, used < SLOTS && s[used].enabled)
  }

  /** Slot i is the first one with key k. */
  ghost predicate IsFirst(s: seq<Slot>, n: nat, i: nat, k: string) {
    i < n <= |s| && Key(s[i].name) == k && forall j :: 0 <= j < i ==> Key(s[j].name) != k
  }

  lemma {:induction false} NoEntry(s: seq<Slot>, n: nat, k: string)
    requires n <= |s| && forall j :: 0 <= j < n ==> Key(s[j].name) != k
    ensures k !in Entries(s, n)
  {
    if n > 0 {
      NoEntry(s, n - 1, k);
    }
  }

  lemma {:induction false} FirstEntry(s: seq<Slot>, n: nat, i: nat, k: string)
    requires IsFirst(s, n, i, k)
    ensures k in Entries(s, n) && Entries(s, n)[k] == s[i].enabled
  {
    if i == n - 1 {
      NoEntry(s, i, k);
    } else {
      FirstEntry(s, n - 1, i, k);
    }
  }

  lemma {:induction false} EntriesFrame(s: seq<Slot>, t: seq<Slot>, n: nat)
    requires n <= |s| && n <= |t| && s[..n] == t[..n]
    ensures Entries(s, n) == Entries(t, n)
  {
    if n > 0 {
      assert s[..n][n - 1] == t[..n][n - 1];
      assert s[..n - 1] == s[..n][..n - 1] && t[..n - 1] == t[..n][..n - 1];
      EntriesFrame(s, t, n - 1);
    }
  }

  lemma {:induction false} EntryChanged(s: seq<Slot>, n: nat, i: nat, k: string, on: bool)
    requires IsFirst(s, n, i, k)
    ensures Entries(s[i := s[i].(enabled := on)], n) == Entries(s, n)[k := on]
  {
    var t := s[i := s[i].(enabled := on)];
    if i == n - 1 {
      NoEntry(s, i, k);
      EntriesFrame(s, t, i);
    } else {
      EntryChanged(s, n - 1, i, k, on);
      FirstEntry(s, n - 1, i, k);
    }
  }

  lemma EntryAdded(s: seq<Slot>, n: nat, slot: Slot)
    requires n < |s|
    ensures Entries(s[n := slot], n + 1)
            == if Key(slot.name) in Entries(s, n) then Entries(s, n) else Entries(s, n)[Key(slot.name) := slot.enabled]
  {
    EntriesFrame(s, s[n := slot], n);
  }

  /** A slot in use matches exactly the names that fit and have its key; a free one only the empty name. */
  lemma MatchMeaning(name: string, slot: string)
    requires slot == "" || Fits(slot)
    ensures Matches(name, slot) <==> if slot == "" then name == "" else Fits(name) && Key(name) == Key(slot)
  {
    if |name| >= NAME_SIZE {
      assert |Clip(name, NAME_SIZE)| == NAME_SIZE;
    }
  }

  class Table {
    const slots: array<Slot>
    ghost var used: nat

    ghost predicate Valid()
      reads this, slots
    {
      slots.Length == SLOTS && Shape(slots[..], used)
    }

    ghost function Abs(): View
      requires Valid()
      reads this, slots
    {
      ViewOf(slots[..], used)
    }

    constructor ()
      ensures Valid() && fresh(slots) && Abs() == EMPTY
    {
      slots := new Slot[SLOTS](_ => Slot("", false));
      used := 0;
    }

    /** The first slot that matches the name, or the number of slots. */
    method Search(name: string) returns (i: nat)
      requires Valid()
      ensures i <= SLOTS
      ensures forall j :: 0 <= j < i ==> !Matches(name, slots[j].name)
      ensures i < SLOTS ==> Matches(name, slots[i].name)
    {
      i := 0;
      while i < SLOTS
        invariant i <= SLOTS
        invariant forall j :: 0 <= j < i ==> !Matches(name, slots[j].name)
      {
        if Matches(name, slots[i].name) {
          return;
        }
        i := i + 1;
      }
    }

    /** What a search says about the meaning of the table. */
    lemma Found(name: string, i: nat)
      requires Valid() && i <= SLOTS
      requires forall j :: 0 <= j < i ==> !Matches(name, slots[j].name)
      requires i < SLOTS ==> Matches(name, slots[i].name)
      ensures i < used ==> Fits(name) && IsFirst(slots[..], used, i, Key(name))
      ensures i >= used && Fits(name) ==> Key(name) !in Abs().entries
      ensures i >= used && i < SLOTS ==> name == "" && i == used
      ensures name == "" ==> i == used
    {
      forall j | 0 <= j < SLOTS
        ensures Matches(name, slots[j].name) <==>
                if slots[j].name == "" then name == "" else Fits(name) && Key(name) == Key(slots[j].name)
      {
        MatchMeaning(name, slots[j].name);
      }
      assert used < SLOTS ==> slots[..][used] == slots[used] && slots[used].name == "";
      assert i < SLOTS ==> slots[..][i] == slots[i];
      if i >= used && Fits(name) {
        NoEntry(slots[..], used, Key(name));
      }
    }

    method Lookup(name: string) returns (on: bool)
      requires Valid()
      ensures on == Setting(Abs(), name)
    {
      var i := Search(name);
      Found(name, i);
      on := i < SLOTS && slots[i].enabled;
      if i < used {
        FirstEntry(slots[..], used, i, Key(name));
      }
    }

    method Add(name: string, on: bool)
      requires Valid() && (name == "" ==> used == SLOTS) && (Fits(name) ==> Key(name) !in Abs().entries)
      modifies this, slots
      ensures Valid() && Abs() == Put(old(Abs()), name, on)
    {
      var i := 0;
      while i < SLOTS && slots[i].name != ""
        invariant i <= used
      {
        i := i + 1;
      }
      if i < SLOTS {
        ghost var before := slots[..];
        var slot := Slot(Clip(name, NAME_SIZE - 1), on);
        EntryAdded(before, i, slot);
        slots[i] := slot;
        assert slots[..] == before[i := slot];
        used := used + 1;
      }
    }

    /** Setting an entry. A name without one gets the first free slot, cut to size. */
    method Update(name: string, on: bool)
      requires Valid()
      modifies this, slots
      ensures Valid() && Abs() == Put(old(Abs()), name, on)
    {
      var i := Search(name);
      Found(name, i);
      ghost var before := slots[..];
      if i < SLOTS {
        slots[i] := slots[i].(enabled := on);
        assert slots[..] == before[i := before[i].(enabled := on)];
        if i < used {
          EntryChanged(before, used, i, Key(name), on);
          FirstEntry(before, used, i, Key(name));
        } else {
          EntriesFrame(before, slots[..], used);
        }
      } else {
        Add(name, on);
      }
    }
  }

  // Runs of updates

  datatype Update = Update(name: string, on: bool)

  function Puts(us: seq<Update>): View {
    if us == [] then EMPTY
    else var n := |us| - 1; Put(Puts(us[..n]), us[n].name, us[n].on)
  }

  function Keys(us: seq<Update>): set<string> { set u <- us :: Key(u.name) }

  /** The last value given under a key. */
  function LastValue(us: seq<Update>, k: string): bool {
    us != [] && var n := |us| - 1; if Key(us[n].name) == k then us[n].on else LastValue(us[..n], k)
  }

  predicate AllFit(us: seq<Update>) { forall u <- us :: Fits(u.name) }

  lemma KeysOneMore(us: seq<Update>)
    requires us != []
    ensures var n := |us| - 1; Keys(us) == Keys(us[..n]) + {Key(us[n].name)}
  {
    var n := |us| - 1;
    assert us == us[..n] + [us[n]];
  }

  lemma KeysGrow(a: set<string>, b: set<string>)
    requires a <= b
    ensures |a| <= |b|
  {
    assert b == a + (b - a);
  }

  /** One update with a name that fits: the entry of its key is set, unless the table is full without it. */
  lemma PutFitting(v: View, u: Update)
    requires Fits(u.name)
    ensures var w, k := Put(v, u.name, u.on), Key(u.name);
            && (!v.blank ==> !w.blank)
            && (k in v.entries ==> w.entries == v.entries[k := u.on] && w.used == v.used)
            && (k !in v.entries && v.used < SLOTS ==> w.entries == v.entries[k := u.on] && w.used == v.used + 1)
            && (k !in v.entries && v.used >= SLOTS ==> w == v)
  {
    assert Clip(u.name, NAME_SIZE - 1) == u.name;
  }

  lemma PutsOneMore(us: seq<Update>)
    requires us != [] && AllFit(us)
    ensures var n := |us| - 1; var v, v', k := Puts(us[..n]), Puts(us), Key(us[n].name);
            && (!v.blank ==> !v'.blank)
            && (k in v.entries ==> v'.entries == v.entries[k := us[n].on] && v'.used == v.used)
            && (k !in v.entries && v.used < SLOTS ==> v'.entries == v.entries[k := us[n].on] && v'.used == v.used + 1)
            && (k !in v.entries && v.used >= SLOTS ==> v' == v)
  {
    assert us[|us| - 1] in us;
    PutFitting(Puts(us[..|us| - 1]), us[|us| - 1]);
  }

  /** Every slot in use has an entry of its own, and the blank one is untouched. */
  lemma {:induction false} TableSize(us: seq<Update>)
    requires AllFit(us)
    ensures var v := Puts(us); v.used == |v.entries| <= SLOTS && !v.blank
  {
    if us != [] {
      var n := |us| - 1;
      TableSize(us[..n]);
      PutsOneMore(us);
      var v, v', k := Puts(us[..n]), Puts(us), Key(us[n].name);
      if k in v.entries {
        assert v'.entries.Keys == v.entries.Keys;
      } else if v.used < SLOTS {
        assert v'.entries.Keys == v.entries.Keys + {k};
      }
      assert |v'.entries| == |v'.entries.Keys| && |v.entries| == |v.entries.Keys|;
    }
  }

  /** Only given names are there, all of them up to five. */
  lemma {:induction false} TableKeys(us: seq<Update>)
    requires AllFit(us)
    ensures var v := Puts(us);
            && v.entries.Keys <= Keys(us)
            && (|Keys(us)| <= SLOTS ==> v.entries.Keys == Keys(us))
            && (|Keys(us)| >= SLOTS ==> v.used == SLOTS)
  {
    if us != [] {
      var n := |us| - 1;
      TableKeys(us[..n]);
      TableSize(us[..n]);
      TableSize(us);
      PutsOneMore(us);
      KeysOneMore(us);
      var v, v', k := Puts(us[..n]), Puts(us), Key(us[n].name);
      assert |v'.entries| == |v'.entries.Keys| && |v.entries| == |v.entries.Keys|;
      KeysGrow(Keys(us[..n]), Keys(us));
      KeysGrow(v.entries.Keys + {k}, Keys(us));
    }
  }

  /** Every entry holds the last value given. */
  lemma {:induction false} TableValues(us: seq<Update>)
    requires AllFit(us)
    ensures forall k <- Puts(us).entries :: Puts(us).entries[k] == LastValue(us, k)
  {
    if us != [] {
      TableValues(us[..|us| - 1]);
      PutsOneMore(us);
    }
  }

  /** The table after any run of updates with names that fit. */
  lemma TableHistory(us: seq<Update>)
    requires AllFit(us)
    ensures var v := Puts(us);
            && v.used == |v.entries| <= 5 && v.entries.Keys <= Keys(us) && !v.blank
            && (|Keys(us)| <= 5 ==> v.entries.Keys == Keys(us))
            && (|Keys(us)| >= 5 ==> v.used == SLOTS)
            && forall k <- v.entries :: v.entries[k] == LastValue(us, k)
  {
    TableSize(us);
    TableKeys(us);
    TableValues(us);
  }

  /** With at most five names no update is refused. */
  lemma RoomForFive(us: seq<Update>)
    requires us != [] && AllFit(us) && |Keys(us)| <= SLOTS
    ensures var n := |us| - 1; var v := Puts(us[..n]); Key(us[n].name) in v.entries || v.used < SLOTS
  {
    var n := |us| - 1;
    var v, k := Puts(us[..n]), Key(us[n].name);
    TableHistory(us[..n]);
    KeysOneMore(us);
    KeysGrow(v.entries.Keys + {k}, Keys(us));
  }

  /** An accepted update is seen under its name, and under no other unless it differs in case only. */
  lemma SettingAfterPut(v: View, name: string, on: bool, other: string)
    requires Fits(name) && (Key(name) in v.entries || v.used < SLOTS)
    requires !v.blank && (Key(other) == Key(name) ==> other == name)
    ensures Setting(Put(v, name, on), other) == if other == name then on else Setting(v, other)
  {
  }

  /** The name came when the table had room. */
  ghost predicate Admitted(us: seq<Update>, k: string) {
    exists i :: 0 <= i < |us| && Key(us[i].name) == k && |Keys(us[..i])| < 5
  }

  lemma AdmittedOneMore(us: seq<Update>, k: string)
    requires us != []
    ensures var n := |us| - 1;
            Admitted(us, k) <==> Admitted(us[..n], k) || (Key(us[n].name) == k && |Keys(us[..n])| < 5)
  {
    var n := |us| - 1;
    forall i | 0 <= i < n
      ensures us[..n][i] == us[i] && us[..n][..i] == us[..i]
    {
    }
    if Admitted(us[..n], k) {
      var i :| 0 <= i < n && Key(us[..n][i].name) == k && |Keys(us[..n][..i])| < 5;
      assert Key(us[i].name) == k && |Keys(us[..i])| < 5;
    }
  }

  /** Exactly the names given while fewer than five others were known keep an entry. */
  lemma {:induction false} KeptExactly(us: seq<Update>, k: string)
    requires AllFit(us)
    ensures k in Puts(us).entries <==> Admitted(us, k)
  {
    if us != [] {
      var n := |us| - 1;
      KeptExactly(us[..n], k);
      TableHistory(us[..n]);
      AdmittedOneMore(us, k);
      assert us[n] in us && Clip(us[n].name, NAME_SIZE - 1) == us[n].name;
    }
  }

  /** A lookup after any run of updates with names that fit: the last value given, unless the name came when
      the table was full. */
  lemma LookupAfter(us: seq<Update>, name: string)
    requires AllFit(us) && Fits(name)
    ensures Setting(Puts(us), name) <==>
            LastValue(us, Key(name)) && Admitted(us, Key(name))
  {
    TableHistory(us);
    KeptExactly(us, Key(name));
  }

  /** A setting given to a table with room reads back, exactly when the name is shorter than the slot. */
  lemma ReadsBackExactly(v: View, name: string)
    requires v.used < SLOTS
    ensures Setting(Put(v, name, true), name) <==> |name| < NAME_SIZE
  {
  }

  /** A name that is too long takes up a slot under its first 15 characters, behind an entry of that name if there is
      one. No other setting changes, but that of the empty name is lost. */
  lemma LongNames(v: View, name: string, on: bool, n: string)
    requires v.used < SLOTS && |name| >= 16
    ensures Put(v, name, on).used == v.used + 1
    ensures Setting(Put(v, name, on), n)
            == if Key(n) == Key(name[..15]) && Key(n) !in v.entries then on else n != "" && Setting(v, n)
  {
  }

  /** The empty name is kept in the first free slot, until a port takes that. */
  lemma EmptyName(v: View, name: string, on: bool)
    requires v.used < SLOTS
    ensures Put(v, "", on).used == v.used
    ensures Setting(Put(v, "", on), name) == if name == "" then on else Setting(v, name)
    ensures Fits(name) && Key(name) !in v.entries ==> !Setting(Put(v, name, on), "")
  {
  }
}

/** The video ports of the host under power changes and standby settings. */
module StandbyPorts {
  import opened StandbyTable

  datatype Power = Off | Standby | On | LightSleep | DeepSleep

  predicate Sleeping(p: Power) { !p.On? && !p.Off? }

  /** The meaning of the state: which of the host's ports are enabled. */
  datatype State = State(table: View, power: Power, enabled: map<string, bool>)

  /** A call that updates a setting. flag is the caller's integer: any value but 0 is stored as on, only 1 enables
      at once. */
  datatype Call = NoCall | Call(name: string, flag: int)

  /** A call can fall into a power change, between the pass over the ports and the write of the power state. */
  datatype Event = PowerChange(next: Power, during: Call := NoCall) | SetStandby(name: string, flag: int)

  function PortFor(table: View, n: string, on: bool, p: Power): bool {
    match p
    case On => true
    case Off => false
    case _ => on && Setting(table, n)
  }

  function PortsFor(table: View, enabled: map<string, bool>, p: Power): (r: map<string, bool>)
    ensures r.Keys == enabled.Keys
  {
    map n <- enabled :: PortFor(table, n, enabled[n], p)
  }

  function Updated(s: State, c: Call): State {
    match c
    case NoCall => s
    case Call(name, flag) =>
      State(Put(s.table, name, flag != 0), s.power,
            if name in s.enabled && Sleeping(s.power) then s.enabled[name := flag == 1] else s.enabled)
  }

  /** After the pass over the ports for a new power state. */
  function Passed(s: State, p: Power): State {
    if p == s.power then s else s.(enabled := PortsFor(s.table, s.enabled, p))
  }

  function Step(s: State, e: Event): State {
    match e
    case PowerChange(p, during) => Updated(Passed(s, p), during).(power := p)
    case SetStandby(name, flag) => Updated(s, Call(name, flag))
  }

  /** Starting in a power state, with whatever ports the host had enabled. */
  function Started(enabled: map<string, bool>, p: Power): State { State(EMPTY, p, PortsFor(EMPTY, enabled, p)) }

  function Run(enabled: map<string, bool>, p: Power, es: seq<Event>): State {
    if es == [] then Started(enabled, p)
    else var n := |es| - 1; Step(Run(enabled, p, es[..n]), es[n])
  }

  class Ports {
    const table: Table
    var power: Power
    var enabled: map<string, bool>
    const names: seq<string>

    ghost predicate Valid()
      reads this, table, table.slots
    {
      table.Valid() && enabled.Keys == set n <- names
    }

    ghost function Abs(): State
      requires Valid()
      reads this, table, table.slots
    {
      State(table.Abs(), power, enabled)
    }

    method SetPortPowerState(n: string, p: Power)
      requires Valid() && n in enabled
      modifies this`enabled
      ensures Valid() && enabled == old(enabled)[n := PortFor(table.Abs(), n, old(enabled[n]), p)]
    {
      if p.On? {
        enabled := enabled[n := true];
      } else if p.Off? {
        enabled := enabled[n := false];
      } else {
        var doEnable := table.Lookup(n);
        if !doEnable {
          enabled := enabled[n := false];
        }
      }
    }

    /** One pass over the host's ports. */
    method SetAVPortsPowerState(p: Power)
      requires Valid()
      modifies this`enabled
      ensures Valid() && enabled == PortsFor(table.Abs(), old(enabled), p)
    {
      ghost var goal := PortsFor(table.Abs(), enabled, p);
      var i := 0;
      while i < |names|
        invariant i <= |names| && enabled.Keys == goal.Keys == old(enabled).Keys
        invariant forall k :: 0 <= k < i ==> enabled[names[k]] == goal[names[k]]
        invariant forall n <- enabled :: enabled[n] in {old(enabled)[n], goal[n]}
      {
        SetPortPowerState(names[i], p);
        i := i + 1;
      }
    }

    constructor (names: seq<string>, enabled: map<string, bool>, power: Power)
      requires enabled.Keys == set n <- names
      ensures Valid() && fresh(table) && fresh(table.slots) && Abs() == Started(enabled, power)
    {
      this.names, this.enabled, this.power := names, enabled, power;
      table := new Table();
      new;
      SetAVPortsPowerState(power);
    }

    /** Result -1 reports a port that the host does not have; its setting is kept all the same. */
    method SetStandbyVideoState(name: string, flag: int) returns (result: int)
      requires Valid()
      modifies this`enabled, table, table.slots
      ensures Valid() && Abs() == Step(old(Abs()), SetStandby(name, flag))
      ensures result == if name in old(enabled) then 0 else -1
    {
      table.Update(name, flag != 0);
      result := 0;
      if name in enabled {
        if Sleeping(power) {
          enabled := enabled[name := flag == 1];
        }
      } else {
        result := -1;
      }
    }

    method SetPowerState(p: Power, during: Call)
      requires Valid()
      modifies this`enabled, this`power, table, table.slots
      ensures Valid() && Abs() == Step(old(Abs()), PowerChange(p, during))
    {
      if power != p {
        SetAVPortsPowerState(p);
      }
      if during.Call? {
        var result := SetStandbyVideoState(during.name, during.flag);
      }
      power := p;
    }

    method GetStandbyVideoState(name: string) returns (result: int, flag: int)
      requires Valid()
      ensures result == if name in enabled then 0 else -1
      ensures name in enabled ==> flag == if Setting(table.Abs(), name) then 1 else 0
    {
      flag := 0;
      result := -1;
      if name in enabled {
        var on := table.Lookup(name);
        flag := if on then 1 else 0;
        result := 0;
      }
    }
  }

  // Main results

  function CallOf(e: Event): Call {
    match e
    case PowerChange(_, during) => during
    case SetStandby(name, flag) => Call(name, flag)
  }

  /** The updates among the events and inside them. */
  function UpdatesOf(es: seq<Event>): seq<Update> {
    if es == [] then []
    else
      var n := |es| - 1;
      UpdatesOf(es[..n]) + match CallOf(es[n])
                           case NoCall => []
                           case Call(name, flag) => [Update(name, flag != 0)]
  }

  /** Names that fit, at most five of them, and no name that differs from a port's only in case. */
  ghost predicate Orderly(ports: set<string>, es: seq<Event>) {
    && AllFit(UpdatesOf(es)) && |Keys(UpdatesOf(es))| <= 5
    && forall e <- es, n <- ports :: CallOf(e).Call? && Key(CallOf(e).name) == Key(n) ==> CallOf(e).name == n
  }

  /** The last power change since which the ports are determined by the settings: On, or the start. */
  predicate Tracked(p: Power, es: seq<Event>) {
    if es == [] then !p.Off?
    else
      var n := |es| - 1;
      if es[n].PowerChange? && es[n].next.Off? then false
      else if es[n].PowerChange? && es[n].next.On? then true
      else Tracked(p, es[..n])
  }

  lemma UpdatesOneMore(es: seq<Event>)
    requires es != []
    ensures var n := |es| - 1; var us := UpdatesOf(es);
            match CallOf(es[n])
            case Call(name, flag) =>
              us != [] && us[|us| - 1] == Update(name, flag != 0) && us[..|us| - 1] == UpdatesOf(es[..n])
            case NoCall => us == UpdatesOf(es[..n])
  {
  }

  lemma StepTable(s: State, e: Event)
    ensures Step(s, e).enabled.Keys == s.enabled.Keys
    ensures Step(s, e).table == match CallOf(e)
                                case NoCall => s.table
                                case Call(name, flag) => Put(s.table, name, flag != 0)
  {
  }

  lemma {:induction false} RunTable(enabled: map<string, bool>, p: Power, es: seq<Event>)
    ensures Run(enabled, p, es).table == Puts(UpdatesOf(es))
    ensures Run(enabled, p, es).enabled.Keys == enabled.Keys
  {
    if es != [] {
      var n := |es| - 1;
      RunTable(enabled, p, es[..n]);
      StepTable(Run(enabled, p, es[..n]), es[n]);
      UpdatesOneMore(es);
    }
  }

  lemma OrderlyBefore(ports: set<string>, es: seq<Event>)
    requires es != [] && Orderly(ports, es)
    ensures Orderly(ports, es[..|es| - 1])
  {
    UpdatesOneMore(es);
    var us := UpdatesOf(es);
    if CallOf(es[|es| - 1]).Call? {
      KeysOneMore(us);
      KeysGrow(Keys(us[..|us| - 1]), Keys(us));
    }
  }

  /** An accepted call changes the setting of its own port only. */
  predicate Accepted(s: State, c: Call) {
    c.Call? ==> forall n <- s.enabled ::
      Setting(Put(s.table, c.name, c.flag != 0), n) == if n == c.name then c.flag != 0 else Setting(s.table, n)
  }

  /** An orderly call is never refused. */
  lemma OrderlyCall(enabled: map<string, bool>, p: Power, es: seq<Event>)
    requires es != [] && Orderly(enabled.Keys, es)
    ensures Accepted(Run(enabled, p, es[..|es| - 1]), CallOf(es[|es| - 1]))
  {
    var before, c := es[..|es| - 1], CallOf(es[|es| - 1]);
    RunTable(enabled, p, before);
    if c.Call? {
      UpdatesOneMore(es);
      var us := UpdatesOf(es);
      RoomForFive(us);
      TableHistory(us[..|us| - 1]);
      assert us[|us| - 1] in us && es[|es| - 1] in es;
      forall n <- enabled
        ensures Setting(Put(Puts(us[..|us| - 1]), c.name, c.flag != 0), n)
             == if n == c.name then c.flag != 0 else Setting(Puts(us[..|us| - 1]), n)
      {
        SettingAfterPut(Puts(us[..|us| - 1]), c.name, c.flag != 0, n);
      }
    }
  }

  /** Off, no port is enabled; asleep, none whose standby setting is off. */
  predicate Guarded(s: State) {
    !s.power.On? ==> forall n <- s.enabled :: s.enabled[n] ==> !s.power.Off? && Setting(s.table, n)
  }

  /** On, every port is enabled; asleep, exactly those whose setting is on. */
  predicate Followed(s: State) {
    !s.power.Off? && forall n <- s.enabled ::
      (s.power.On? ==> s.enabled[n]) && (Sleeping(s.power) ==> s.enabled[n] == Setting(s.table, n))
  }

  /** A call inside a power change is judged by the old power state. It leaves a port enabled in Off when it enables
      it on the way from sleep, and leaves one enabled asleep when it turns it off on the way from On. */
  predicate KeepsGuard(s: State, e: Event) {
    e.PowerChange? && e.next != s.power && e.during.Call? && e.during.name in s.enabled ==>
      && (e.next.Off? && Sleeping(s.power) ==> e.during.flag != 1)
      && (Sleeping(e.next) && s.power.On? && s.enabled[e.during.name] && Setting(s.table, e.during.name) ==>
            e.during.flag != 0)
  }

  lemma GuardAfter(s: State, e: Event)
    requires Guarded(s) && Accepted(s, CallOf(e))
    ensures Guarded(Step(s, e)) <==> KeepsGuard(s, e)
  {
  }

  /** The ports are guarded at every point of a run. */
  predicate AlwaysGuarded(enabled: map<string, bool>, p: Power, es: seq<Event>) {
    Guarded(Run(enabled, p, es)) && (es != [] ==> AlwaysGuarded(enabled, p, es[..|es| - 1]))
  }

  /** No event of a run breaks it. */
  predicate GuardKept(enabled: map<string, bool>, p: Power, es: seq<Event>) {
    es != [] ==>
      var n := |es| - 1;
      KeepsGuard(Run(enabled, p, es[..n]), es[n]) && GuardKept(enabled, p, es[..n])
  }

  /** In every orderly run, whatever the flags: the ports are guarded at every point exactly when no call inside a
      power change breaks it. */
  lemma {:induction false} PortsGuarded(enabled: map<string, bool>, p: Power, es: seq<Event>)
    requires Orderly(enabled.Keys, es)
    ensures AlwaysGuarded(enabled, p, es) <==> GuardKept(enabled, p, es)
    decreases |es|
  {
    if es != [] {
      var n := |es| - 1;
      OrderlyBefore(enabled.Keys, es);
      PortsGuarded(enabled, p, es[..n]);
      if AlwaysGuarded(enabled, p, es[..n]) {
        OrderlyCall(enabled, p, es);
        GuardAfter(Run(enabled, p, es[..n]), es[n]);
      }
    }
  }

  /** On the way from sleep to On a call must not disable its port, and on the way from On to sleep it must not
      change its setting. */
  predicate KeepsFollowing(s: State, e: Event) {
    e.PowerChange? && e.next != s.power && e.during.Call? && e.during.name in s.enabled ==>
      && (e.next.On? && Sleeping(s.power) ==> e.during.flag == 1)
      && (Sleeping(e.next) && s.power.On? ==> (e.during.flag != 0) == Setting(s.table, e.during.name))
  }

  lemma FollowingAfter(s: State, e: Event)
    requires Followed(s) || (e.PowerChange? && e.next.On?)
    requires e.PowerChange? ==> !e.next.Off? && (e.next == s.power ==> Followed(s))
    requires Accepted(s, CallOf(e)) && (CallOf(e).Call? ==> CallOf(e).flag in {0, 1})
    ensures Followed(Step(s, e)) <==> KeepsFollowing(s, e)
  {
  }

  /** At every point of a run the ports follow the settings, if they are determined by them. */
  predicate AlwaysFollowed(enabled: map<string, bool>, p: Power, es: seq<Event>) {
    && (Tracked(p, es) ==> Followed(Run(enabled, p, es)))
    && (es != [] ==> AlwaysFollowed(enabled, p, es[..|es| - 1]))
  }

  predicate FollowingKept(enabled: map<string, bool>, p: Power, es: seq<Event>) {
    es != [] ==>
      var n := |es| - 1;
      (Tracked(p, es) ==> KeepsFollowing(Run(enabled, p, es[..n]), es[n])) && FollowingKept(enabled, p, es[..n])
  }

  lemma {:induction false} OnIsTracked(enabled: map<string, bool>, p: Power, es: seq<Event>)
    ensures Run(enabled, p, es).power.On? ==> Tracked(p, es)
  {
    if es != [] {
      OnIsTracked(enabled, p, es[..|es| - 1]);
    }
  }

  /** In every orderly run with flags 0 and 1: as long as there was no Off since the last On, the ports follow the
      settings at every point exactly when no call inside a power change breaks it. */
  lemma {:induction false} PortsFollow(enabled: map<string, bool>, p: Power, es: seq<Event>)
    requires Orderly(enabled.Keys, es)
    requires forall e <- es :: CallOf(e).Call? ==> CallOf(e).flag in {0, 1}
    ensures AlwaysFollowed(enabled, p, es) <==> FollowingKept(enabled, p, es)
    decreases |es|
  {
    if es == [] {
      assert forall n :: !Setting(EMPTY, n);
    } else {
      var n := |es| - 1;
      OrderlyBefore(enabled.Keys, es);
      PortsFollow(enabled, p, es[..n]);
      if AlwaysFollowed(enabled, p, es[..n]) && Tracked(p, es) {
        OrderlyCall(enabled, p, es);
        OnIsTracked(enabled, p, es[..n]);
        assert es[n] in es;
        FollowingAfter(Run(enabled, p, es[..n]), es[n]);
      }
    }
  }

  /** When one update on a sleeping box leaves the port as its setting says: an accepted one exactly with
      flag 0 or 1, and one that the full table refuses exactly without flag 1. */
  lemma AgreesExactly(s: State, name: string, flag: int)
    requires Sleeping(s.power) && name in s.enabled && Fits(name)
    ensures var t := Step(s, SetStandby(name, flag));
            t.enabled[name] == Setting(t.table, name) <==>
            if Key(name) in s.table.entries || s.table.used < SLOTS then flag in {0, 1} else flag != 1
  {
    assert Clip(name, NAME_SIZE - 1) == name;
  }

  /** After any run the power state is that of the last change, whatever updates came after it or fell into it. */
  lemma {:induction false} PowerOfRun(enabled: map<string, bool>, p: Power, es: seq<Event>, k: nat)
    requires k < |es| && es[k].PowerChange? && forall i :: k < i < |es| ==> es[i].SetStandby?
    ensures Run(enabled, p, es).power == es[k].next
    decreases |es|
  {
    if k < |es| - 1 {
      PowerOfRun(enabled, p, es[..|es| - 1], k);
    }
  }

  /** Without a change it is that of the start. */
  lemma {:induction false} PowerUnchanged(enabled: map<string, bool>, p: Power, es: seq<Event>)
    requires forall i :: 0 <= i < |es| ==> es[i].SetStandby?
    ensures Run(enabled, p, es).power == p
    decreases |es|
  {
    if es != [] {
      PowerUnchanged(enabled, p, es[..|es| - 1]);
    }
  }

  /** A power change enables a port only on the way to On, and then all of them; the way to sleep never does. */
  lemma OnlyOnEnables(s: State, p: Power)
    requires p != s.power
    ensures forall n <- s.enabled ::
              Step(s, PowerChange(p)).enabled[n] <==> p.On? || (s.enabled[n] && !p.Off? && Setting(s.table, n))
  {
  }
}
