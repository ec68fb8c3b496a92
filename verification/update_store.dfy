/**
 * The update store of frontend/src/posapp/stores/updateStore.js: the
 * running build version, the newest available one, a snooze deadline and
 * a reload in progress, and whether the "update ready" prompt shows.
 * Versions are strings with the empty string for a missing one; times are
 * milliseconds, with `now` a parameter instead of `Date.now()`. Browser
 * storage is given as the text read from it; writing it is not modelled.
 */
module UpdateStore {
  import opened Common
  import opened Numerals

  const DefaultSnoozeMinutes := 10
  const MillisPerMinute := 60 * 1000

  // ---------------------------------------------------------------------
  // Build timestamps (updateStore.js:64-73)

  /** The text after the last '-' (all of `s` when it has none). */
  function LastSegment(s: string): (r: string)
    ensures |r| <= |s| && r == s[|s| - |r|..]
    ensures '-' !in r
    ensures |r| < |s| ==> s[|s| - |r| - 1] == '-'
  {
    if s == [] || s[|s| - 1] == '-' then []
    else LastSegment(s[..|s| - 1]) + [s[|s| - 1]]
  }

  /**
   * `parseTimestamp`: a version that reads as a number above 1000 is that
   * number; otherwise its last '-' separated segment read as a number,
   * or nothing when that is not a number. A missing version has none.
   */
  function ParseTimestamp(version: string): (r: Option<int>)
    ensures version == [] ==> r == None
    ensures version != [] && NumberOf(version).Some? && NumberOf(version).value > 1000 ==> r == NumberOf(version)
    ensures r != NumberOf(version) ==> r == None || r == NumberOf(LastSegment(version))
  {
    if version == [] then None
    else
      var numeric := NumberOf(version);
      if numeric.Some? && numeric.value > 1000 then numeric
      else NumberOf(LastSegment(version))
  }

  /** A build number above 1000 is its own timestamp. */
  lemma TimestampOfBuildNumber(n: nat)
    requires n > 1000
    ensures ParseTimestamp(Decimal(n)) == Some(n)
  {
    NumberOfDecimal(n);
  }

  /** A version tagged `<name>-<number>` has the number as timestamp. */
  lemma TimestampOfTaggedVersion(name: string, n: nat)
    requires name != [] && !IsSpace(name[0])
    ensures ParseTimestamp(name + "-" + Decimal(n)) == Some(n)
  {
    var d := Decimal(n);
    LastSegmentAfterDash(name + "-", d);
    NumberOfDecimal(n);
    TaggedVersionIsNotANumber(name, d);
  }

  /** Text, a dash and digits do not read as one number. */
  lemma TaggedVersionIsNotANumber(name: string, d: string)
    requires name != [] && !IsSpace(name[0])
    requires d != [] && AllDigits(d)
    ensures NumberOf(name + "-" + d) == None
  {
    var v := name + "-" + d;
    assert v[|v| - 1] == d[|d| - 1] && IsDigit(d[|d| - 1]);
    assert v[0] == name[0] && v[|name|] == '-';
    NumberOfRejectsOtherText(v, |name|);
  }

  lemma {:induction false} LastSegmentAfterDash(front: string, tail: string)
    requires front != [] && front[|front| - 1] == '-' && '-' !in tail
    ensures LastSegment(front + tail) == tail
    decreases |tail|
  {
    var s := front + tail;
    if tail == [] {
      assert s == front;
    } else {
      assert s[..|s| - 1] == front + tail[..|tail| - 1];
      assert tail[|tail| - 1] in tail;
      LastSegmentAfterDash(front, tail[..|tail| - 1]);
      assert tail[..|tail| - 1] + [tail[|tail| - 1]] == tail;
    }
  }

  // ---------------------------------------------------------------------
  // State and getters (updateStore.js:93-114)

  /** The store state; `hasReloadAction` says the registered reload action
      is a function. */
  datatype Store = Store(currentVersion: string, availableVersion: string, availableTimestamp: Option<int>,
                         dismissedUntil: Option<int>, hasReloadAction: bool, reloading: bool)

  const Initial := Store([], [], None, None, false, false)

  /** `isUpdateReady`: both versions are known and they differ. */
  predicate IsUpdateReady(s: Store)
  {
    s.availableVersion != [] && s.currentVersion != [] && s.availableVersion != s.currentVersion
  }

  /** A snooze deadline (0 counts as none) that has not passed. */
  predicate Snoozed(s: Store, now: int)
  {
    s.dismissedUntil.Some? && s.dismissedUntil.value != 0 && s.dismissedUntil.value > now
  }

  /** `shouldPrompt`: an update is ready, no reload runs, no snooze holds. */
  predicate ShouldPrompt(s: Store, now: int)
  {
    if !IsUpdateReady(s) || s.reloading then false else !Snoozed(s, now)
  }

  /** An explicit timestamp wins over the one parsed from the version. */
  function ResolveTimestamp(explicit: Option<int>, version: string): (r: Option<int>)
    ensures explicit.Some? ==> r == explicit
    ensures explicit.None? ==> r == ParseTimestamp(version)
  {
    if explicit.Some? then explicit else ParseTimestamp(version)
  }

  // ---------------------------------------------------------------------
  // Actions (updateStore.js:120-245)

  /** A falsy stored number counts as absent. */
  predicate IsSet(n: Option<int>)
  {
    n.Some? && n.value != 0
  }

  /**
   * `initializeFromStorage`, given the stored version text and the stored
   * snooze text: a stored version becomes the current one and fills an
   * unknown available version and timestamp; a stored snooze deadline is
   * adopted when it is later than the one held.
   */
  function InitializeFromStorage(s: Store, storedVersion: string, storedSnooze: string): (r: Store)
    ensures storedVersion != [] ==> r.currentVersion == storedVersion
    ensures storedVersion == [] ==> r.currentVersion == s.currentVersion && r.availableVersion == s.availableVersion
    ensures s.availableVersion != [] ==> r.availableVersion == s.availableVersion
    ensures IsSet(s.dismissedUntil) ==> IsSet(r.dismissedUntil) && r.dismissedUntil.value >= s.dismissedUntil.value
    ensures r.dismissedUntil != s.dismissedUntil ==> r.dismissedUntil == NumberOf(storedSnooze) && IsSet(r.dismissedUntil)
    ensures r.reloading == s.reloading && r.hasReloadAction == s.hasReloadAction
  {
    var withVersion :=
      if storedVersion != [] then
        s.(currentVersion := storedVersion,
           availableVersion := if s.availableVersion != [] then s.availableVersion else storedVersion,
           availableTimestamp := if IsSet(s.availableTimestamp) then s.availableTimestamp else ParseTimestamp(storedVersion))
      else s;
    var snoozeUntil := if storedSnooze == [] then None else NumberOf(storedSnooze);
    if IsSet(snoozeUntil) && (!IsSet(s.dismissedUntil) || snoozeUntil.value > s.dismissedUntil.value)
    then withVersion.(dismissedUntil := snoozeUntil)
    else withVersion
  }

  /**
   * `setCurrentVersion`: the version becomes current; the available
   * version and timestamp follow it when no other update was pending.
   * A missing version changes nothing.
   */
  function SetCurrentVersion(s: Store, version: string, explicit: Option<int>): (r: Store)
    ensures version == [] ==> r == s
    ensures version != [] ==> r.currentVersion == version
    ensures version != [] ==>
              (IsUpdateReady(r) <==> s.availableVersion != [] && s.availableVersion != s.currentVersion
                                     && s.availableVersion != version)
    ensures IsUpdateReady(s) ==> r.availableVersion == s.availableVersion && r.availableTimestamp == s.availableTimestamp
    ensures r.dismissedUntil == s.dismissedUntil && r.reloading == s.reloading && r.hasReloadAction == s.hasReloadAction
  {
    if version == [] then s
    else
      var ts := ResolveTimestamp(explicit, version);
      var sync := s.availableVersion == [] || s.availableVersion == s.currentVersion;
      s.(currentVersion := version,
         availableVersion := if sync then version else s.availableVersion,
         availableTimestamp := if sync then ts else s.availableTimestamp)
  }

  /**
   * `setAvailableVersion`: the version and its timestamp become the
   * available ones, and it becomes the current version only when none is
   * set; an update is then ready iff a different version is current.
   */
  function SetAvailableVersion(s: Store, version: string, explicit: Option<int>): (r: Store)
    ensures version == [] ==> r == s
    ensures version != [] ==> r.availableVersion == version && r.availableTimestamp == ResolveTimestamp(explicit, version)
    ensures r.currentVersion == (if s.currentVersion == [] then version else s.currentVersion)
    ensures version != [] ==> (IsUpdateReady(r) <==> s.currentVersion != [] && s.currentVersion != version)
    ensures r.dismissedUntil == s.dismissedUntil && r.reloading == s.reloading && r.hasReloadAction == s.hasReloadAction
  {
    if version == [] then s
    else
      var ts := ResolveTimestamp(explicit, version);
      if s.availableVersion == version && s.availableTimestamp == ts then
        if s.currentVersion == [] then SetCurrentVersion(s, version, ts) else s
      else
        s.(availableVersion := version, availableTimestamp := ts,
           currentVersion := if s.currentVersion == [] then version else s.currentVersion)
  }

  /**
   * `markUpdateApplied`: the reload is over and the snooze cleared; the
   * given version (or else the current one) becomes both current and
   * available, so no update is ready and no prompt shows.
   */
  function MarkUpdateApplied(s: Store, version: string, explicit: Option<int>): (r: Store)
    ensures !r.reloading && r.dismissedUntil == None && r.hasReloadAction == s.hasReloadAction
    ensures version != [] ==> r.currentVersion == version && r.availableVersion == version
                              && r.availableTimestamp == ResolveTimestamp(explicit, version)
    ensures version == [] ==> r.currentVersion == s.currentVersion
    ensures !IsUpdateReady(r)
    ensures forall now :: !ShouldPrompt(r, now)
  {
    var base := s.(reloading := false, dismissedUntil := None);
    if version != [] then
      base.(currentVersion := version, availableVersion := version,
            availableTimestamp := ResolveTimestamp(explicit, version))
    else if s.currentVersion != [] then
      base.(availableVersion := s.currentVersion, availableTimestamp := ResolveTimestamp(explicit, s.currentVersion))
    else base
  }

  /** `setReloadAction`: records whether the new action is a function. */
  function SetReloadAction(s: Store, isFunction: bool): (r: Store)
    ensures r.hasReloadAction == isFunction
    ensures r.(hasReloadAction := s.hasReloadAction) == s
  {
    s.(hasReloadAction := isFunction)
  }

  /** The store after `reloadNow`, and whether the action was called. */
  datatype Reload = Reload(store: Store, invoked: bool)

  /**
   * `reloadNow`: without an action or while a reload runs nothing
   * happens; otherwise the reload starts and the action is called, after
   * which no prompt shows.
   */
  function ReloadNow(s: Store): (r: Reload)
    ensures r.invoked <==> s.hasReloadAction && !s.reloading
    ensures !r.invoked ==> r.store == s
    ensures r.invoked ==> r.store == s.(reloading := true)
    ensures forall now :: ShouldPrompt(r.store, now) ==> ShouldPrompt(s, now) && !r.invoked
  {
    if !s.hasReloadAction || s.reloading then Reload(s, false)
    else Reload(s.(reloading := true), true)
  }

  /** `snooze`: the prompt is dismissed until `minutes` from now. */
  function Snooze(s: Store, now: int, minutes: int): (r: Store)
    ensures r.dismissedUntil == Some(now + minutes * MillisPerMinute)
    ensures r.(dismissedUntil := s.dismissedUntil) == s
  {
    s.(dismissedUntil := Some(now + minutes * MillisPerMinute))
  }

  /** `resetSnooze`: no deadline any more. */
  function ResetSnooze(s: Store): (r: Store)
    ensures r.dismissedUntil == None
    ensures r.(dismissedUntil := s.dismissedUntil) == s
  {
    s.(dismissedUntil := None)
  }

  /** After a snooze at a positive time the prompt stays hidden exactly
      until the deadline. */
  lemma SnoozeHidesPromptUntilDeadline(s: Store, now: int, minutes: int, t: int)
    requires now > 0 && minutes >= 0
    ensures ShouldPrompt(Snooze(s, now, minutes), t) <==>
              IsUpdateReady(s) && !s.reloading && t >= now + minutes * MillisPerMinute
  {
  }

  /** After a reset the prompt shows iff an update is ready and no reload
      runs. */
  lemma ResetSnoozeShowsPrompt(s: Store, now: int)
    ensures ShouldPrompt(ResetSnooze(s), now) <==> IsUpdateReady(s) && !s.reloading
  {
  }

  /** A newer build announced while another runs raises the prompt once
      any snooze has passed, until it is applied. */
  lemma AnnouncedUpdatePrompts(s: Store, version: string, explicit: Option<int>, now: int)
    requires s.currentVersion != [] && version != [] && version != s.currentVersion
    requires !s.reloading && !Snoozed(s, now)
    ensures ShouldPrompt(SetAvailableVersion(s, version, explicit), now)
    ensures !ShouldPrompt(MarkUpdateApplied(SetAvailableVersion(s, version, explicit), version, None), now)
  {
  }
}
