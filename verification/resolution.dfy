/** The choice of a video resolution for a port when a display is plugged in (dsmgr/dsMgr.c). */
module Resolution {

  datatype Port = Hdmi | Component | Baseband | Rf | Other

  /** What the display reports. hdmi is false for a DVI device. */
  datatype Edid = Edid(tv: seq<string>, hdmi: bool)

  datatype Display = NoDisplay | Display(edid: Edid)

  /** An entry of the display's list or of the platform's list. */
  datatype Entry = Tv(i: nat) | Platform(j: nat)

  datatype Outcome = NotSet | Chosen(entry: Entry, forceCompatible: bool)

  /** The platform's resolutions and the index of the default one. */
  datatype Config = Config(platform: seq<string>, default: nat)

  predicate Usable(c: Config) { c.default < |c.platform| }

  const SAFE := "480p"
  const FOUR_K := "2160"

  predicate Is4K(name: string) { FOUR_K <= name }

  // The rule

  /** The first place of a name in a list, or the length of the list. */
  function First(list: seq<string>, name: string): (i: nat)
    ensures i <= |list|
    ensures forall k :: 0 <= k < i ==> list[k] != name
    ensures i < |list| ==> list[i] == name
  {
    if list == [] || list[0] == name then 0 else 1 + First(list[1..], name)
  }

  /** The highest place of a display entry that the platform knows, or -1. */
  function Best(tv: seq<string>, platform: seq<string>): (i: int)
    ensures -1 <= i < |tv|
    ensures i >= 0 ==> tv[i] in platform
    ensures forall k :: i < k < |tv| ==> tv[k] !in platform
  {
    if tv == [] then -1
    else if tv[|tv| - 1] in platform then |tv| - 1
    else Best(tv[..|tv| - 1], platform)
  }

  /** Four cases: the persisted resolution, the best common one, 480p, the platform's default. */
  function HdmiRule(c: Config, tv: seq<string>, persisted: string): Entry {
    if persisted in tv then Tv(First(tv, persisted))
    else if Best(tv, c.platform) >= 0 then Tv(Best(tv, c.platform))
    else if SAFE in tv then Tv(First(tv, SAFE))
    else Platform(c.default)
  }

  function Rule(c: Config, port: Port, display: Display, persisted: string, disable4K: bool): Outcome {
    if port.Hdmi? && display.Display? && (display.edid.tv == [] || !display.edid.hdmi) then NotSet
    else
      var tv := if port.Hdmi? && display.Display? then display.edid.tv else [];
      var analogue := port.Component? || port.Baseband? || port.Rf?;
      var entry :=
        if disable4K && Is4K(persisted) then Platform(c.default)
        else if port.Hdmi? && display.Display? then HdmiRule(c, tv, persisted)
        else if analogue && persisted in c.platform then Platform(First(c.platform, persisted))
        else Platform(c.default);
      Chosen(entry, persisted in tv)
  }

  function NameOf(c: Config, display: Display, e: Entry): string
    requires match e
             case Tv(i) => display.Display? && i < |display.edid.tv|
             case Platform(j) => j < |c.platform|
  {
    match e
    case Tv(i) => display.edid.tv[i]
    case Platform(j) => c.platform[j]
  }

  // The search

  /** One forward pass over a list for a name. at is the entry last looked at. */
  method Pass(list: seq<string>, name: string) returns (found: bool, at: nat)
    ensures found == (name in list)
    ensures found ==> at == First(list, name)
    ensures !found && list != [] ==> at == |list| - 1
  {
    found, at := false, 0;
    var i := 0;
    while i < |list|
      invariant i <= |list| && !found
      invariant forall k :: 0 <= k < i ==> list[k] != name
      invariant i > 0 ==> at == i - 1
    {
      at := i;
      if list[i] == name {
        found := true;
        break;
      }
      i := i + 1;
    }
  }

  /** Both lists from the top. */
  method BestPass(tv: seq<string>, platform: seq<string>) returns (found: bool, at: nat)
    ensures found == (Best(tv, platform) >= 0)
    ensures found ==> at == Best(tv, platform)
    ensures !found ==> at == 0
  {
    found, at := false, 0;
    var i := |tv| - 1;
    while i >= 0
      invariant -1 <= i < |tv| && !found
      invariant forall k :: i < k < |tv| ==> tv[k] !in platform
      invariant i < |tv| - 1 ==> at == i + 1
      invariant i == |tv| - 1 ==> at == 0
    {
      at := i;
      var j := |platform| - 1;
      while j >= 0
        invariant -1 <= j < |platform| && !found
        invariant forall k :: j < k < |platform| ==> platform[k] != tv[i]
      {
        if platform[j] == tv[i] {
          found := true;
          break;
        }
        j := j - 1;
      }
      if found {
        break;
      }
      i := i - 1;
    }
  }

  /** The last pass does not leave the outer loop when it succeeds, so it ends at the last entry. */
  method AnyPass(tv: seq<string>, platform: seq<string>) returns (found: bool, at: nat)
    ensures found == exists i :: 0 <= i < |tv| && tv[i] in platform
    ensures tv != [] ==> at == |tv| - 1
  {
    found, at := false, 0;
    var i := 0;
    while i < |tv|
      invariant i <= |tv| && (i > 0 ==> at == i - 1)
      invariant found == exists k :: 0 <= k < i && tv[k] in platform
    {
      at := i;
      var j := 0;
      while j < |platform|
        invariant j <= |platform| && forall k :: 0 <= k < j ==> platform[k] != tv[i]
        invariant found == exists k :: 0 <= k < i && tv[k] in platform
      {
        if platform[j] == tv[i] {
          break;
        }
        j := j + 1;
      }
      found := found || j < |platform|;
      i := i + 1;
    }
  }

  /** The five passes of the HDMI path. The pass that decided is never the third or the fifth; 6 is none. */
  method HdmiSearch(c: Config, tv: seq<string>, persisted: string)
    returns (valid: bool, at: nat, force: bool, decided: nat)
    requires Usable(c) && tv != []
    ensures force == (persisted in tv)
    ensures HdmiRule(c, tv, persisted) == if valid then Tv(at) else Platform(c.default)
    ensures decided in {1, 2, 4, 6} && (valid <==> decided != 6)
  {
    force, decided := false, 1;
    valid, at := Pass(tv, persisted);
    if valid {
      force := true;
    }
    if !valid {
      decided := 2;
      valid, at := BestPass(tv, c.platform);
    }
    if !valid {
      decided := 3;
      valid, at := Pass(tv, c.platform[c.default]);
    }
    if !valid {
      decided := 4;
      valid, at := Pass(tv, SAFE);
    }
    if !valid {
      decided := 5;
      valid, at := AnyPass(tv, c.platform);
      if !valid {
        decided := 6;
      }
    }
  }

  method SetResolution(c: Config, port: Port, display: Display, persisted: string, disable4K: bool)
    returns (r: Outcome)
    requires Usable(c)
    ensures r == Rule(c, port, display, persisted, disable4K)
  {
    var valid, force := false, false;
    var entry := Platform(c.default);
    if port.Hdmi? {
      if display.Display? {
        if |display.edid.tv| == 0 || !display.edid.hdmi {
          return NotSet;
        }
        var at, decided;
        valid, at, force, decided := HdmiSearch(c, display.edid.tv, persisted);
        entry := Tv(at);
      }
    } else if port.Component? || port.Baseband? || port.Rf? {
      var at;
      valid, at := Pass(c.platform, persisted);
      entry := Platform(at);
    }
    if !valid {
      entry := Platform(c.default);
    }
    if disable4K {
      if Is4K(persisted) {
        entry := Platform(c.default);
      }
    }
    r := Chosen(entry, force);
  }

  // Main results

  /** The third pass can succeed only where the second does, and the fifth exactly where the second does;
      so neither can succeed where it stands. */
  lemma RedundantPasses(c: Config, tv: seq<string>)
    requires Usable(c)
    ensures c.platform[c.default] in tv ==> Best(tv, c.platform) >= 0
    ensures (exists i :: 0 <= i < |tv| && tv[i] in c.platform) <==> Best(tv, c.platform) >= 0
  {
    if c.platform[c.default] in tv {
      var i :| 0 <= i < |tv| && tv[i] == c.platform[c.default];
      assert tv[i] in c.platform;
    }
  }

  predicate Unlisted(c: Config, tv: seq<string>, persisted: string, disable4K: bool) {
    || (disable4K && Is4K(persisted))
    || (persisted !in tv && SAFE !in tv && forall n <- tv :: n !in c.platform)
  }

  /** The chosen entry exists, and on HDMI it is one that the display lists unless nothing there is usable
      or 4K is disabled. */
  lemma ChosenIsListed(c: Config, port: Port, display: Display, persisted: string, disable4K: bool)
    requires Usable(c) && Rule(c, port, display, persisted, disable4K).Chosen?
    ensures var e := Rule(c, port, display, persisted, disable4K).entry;
            && (e.Tv? ==> display.Display? && e.i < |display.edid.tv|)
            && (e.Platform? ==> e.j < |c.platform|)
            && (port.Hdmi? && display.Display? ==>
                  (e.Platform? <==> Unlisted(c, display.edid.tv, persisted, disable4K)))
  {
    if port.Hdmi? && display.Display? {
      var tv := display.edid.tv;
      if n :| n in tv && n in c.platform {
        var i :| 0 <= i < |tv| && tv[i] == n;
        assert Best(tv, c.platform) >= 0;
      }
    }
  }

  /** Persisting the chosen resolution and plugging the same display in again chooses one of the same name, exactly
      unless 4K is disabled, the choice was 4K all the same, and the platform's default is another one. */
  lemma StableExactly(c: Config, edid: Edid, persisted: string, disable4K: bool)
    requires Usable(c) && edid.tv != [] && edid.hdmi
    requires Rule(c, Hdmi, Display(edid), persisted, disable4K).entry.Tv?
    ensures var display := Display(edid);
            var e := Rule(c, Hdmi, display, persisted, disable4K).entry;
            && e.i < |edid.tv|
            && var name := edid.tv[e.i];
               var again := Rule(c, Hdmi, display, name, disable4K).entry;
               && (again.Tv? ==> again.i < |edid.tv|) && (again.Platform? ==> again.j < |c.platform|)
               && (NameOf(c, display, again) == name <==>
                     !(disable4K && Is4K(name)) || c.platform[c.default] == name)
  {
    ChosenIsListed(c, Hdmi, Display(edid), persisted, disable4K);
    var name := edid.tv[Rule(c, Hdmi, Display(edid), persisted, disable4K).entry.i];
    assert First(edid.tv, name) < |edid.tv| && edid.tv[First(edid.tv, name)] == name;
  }

  predicate Passes4K(c: Config, tv: seq<string>, persisted: string)
    requires Usable(c)
  {
    if Is4K(persisted) then Is4K(c.platform[c.default])
    else
      && persisted !in tv
      && if Best(tv, c.platform) >= 0 then Is4K(tv[Best(tv, c.platform)])
         else SAFE !in tv && Is4K(c.platform[c.default])
  }

  /** Disabling 4K looks at the persisted name only. A 4K resolution is chosen all the same exactly when
      another name is persisted and the search ends at a 4K entry: the best common one, or the default. */
  lemma Disabled4KExactly(c: Config, tv: seq<string>, persisted: string)
    requires Usable(c) && tv != []
    ensures var display := Display(Edid(tv, true));
            var e := Rule(c, Hdmi, display, persisted, true).entry;
            && (e.Tv? ==> e.i < |tv|) && (e.Platform? ==> e.j < |c.platform|)
            && (Is4K(NameOf(c, display, e)) <==> Passes4K(c, tv, persisted))
  {
    if Is4K(persisted) {
    } else if persisted in tv {
      assert tv[First(tv, persisted)] == persisted;
    } else if Best(tv, c.platform) < 0 && SAFE in tv {
      assert tv[First(tv, SAFE)] == SAFE && SAFE[0] != FOUR_K[0];
    }
  }

  // The rule case by case

  /** A display to choose for: on HDMI one that is connected, is not a DVI device and lists something. */
  predicate Listens(port: Port, display: Display) {
    port.Hdmi? && display.Display? && display.edid.tv != [] && display.edid.hdmi
  }

  /** Nothing is set exactly when HDMI has a DVI device or an empty list. The choice is forced to be compatible exactly
      when the display lists the persisted name, even if the choice is another one because 4K is disabled. */
  lemma SetExactly(c: Config, port: Port, display: Display, persisted: string, disable4K: bool)
    ensures var r := Rule(c, port, display, persisted, disable4K);
            && (r.NotSet? <==> port.Hdmi? && display.Display? && !Listens(port, display))
            && (r.Chosen? ==>
                  (r.forceCompatible <==> port.Hdmi? && display.Display? && persisted in display.edid.tv))
  {
  }

  /** On HDMI the name persisted if the display lists it, else the one listed last of those the platform knows, else
      480p if listed, else the platform's default. */
  lemma HdmiChoice(c: Config, display: Display, persisted: string)
    requires Usable(c) && Listens(Hdmi, display)
    ensures var tv := display.edid.tv; var r := Rule(c, Hdmi, display, persisted, false);
            && r.Chosen?
            && (r.entry.Tv? ==> r.entry.i < |tv|)
            && if persisted in tv then r.entry.Tv? && tv[r.entry.i] == persisted
               else if exists n <- tv :: n in c.platform then
                 && r.entry.Tv? && tv[r.entry.i] in c.platform
                 && forall k :: r.entry.i < k < |tv| ==> tv[k] !in c.platform
               else if "480p" in tv then r.entry.Tv? && tv[r.entry.i] == "480p"
               else r.entry == Platform(c.default)
  {
    var tv := display.edid.tv;
    if n :| n in tv && n in c.platform {
      var i :| 0 <= i < |tv| && tv[i] == n;
      assert Best(tv, c.platform) >= i;
    }
  }

  /** On the analogue ports the persisted name if the platform knows it, and the platform's default otherwise; on all
      other ports, and on HDMI without a display, the default. */
  lemma PlatformChoice(c: Config, port: Port, display: Display, persisted: string)
    requires Usable(c) && !(port.Hdmi? && display.Display?)
    ensures var r := Rule(c, port, display, persisted, false);
            && r.Chosen? && r.entry.Platform? && r.entry.j < |c.platform|
            && if port in {Component, Baseband, Rf} && persisted in c.platform
               then c.platform[r.entry.j] == persisted && forall k :: 0 <= k < r.entry.j ==> c.platform[k] != persisted
               else r.entry.j == c.default
  {
  }

  /** Disabling 4K changes the choice exactly for a persisted name with "2160" at its front, and then to the default. */
  lemma Disabling4K(c: Config, port: Port, display: Display, persisted: string)
    ensures var with, without := Rule(c, port, display, persisted, true), Rule(c, port, display, persisted, false);
            && (with.NotSet? <==> without.NotSet?)
            && (without.Chosen? && "2160" <= persisted ==>
                  with == Chosen(Platform(c.default), without.forceCompatible))
            && (without.Chosen? && !("2160" <= persisted) ==> with == without)
  {
  }
}
