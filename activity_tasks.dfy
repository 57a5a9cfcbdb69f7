/**
 * An activity-manager task: the ordered list of its activities (bottom first),
 * the count of fullscreen activities, the task type and recents limit taken from
 * the first activity, the front-of-task marker, the searches over the list, and
 * the persisted task-description attributes.
 */
module ActivityTasks {
  import opened Wrappers
  import opened Lists

  /** The activity types of ActivityRecord (APPLICATION, HOME and RECENTS). */
  datatype ActivityType = ApplicationActivity | HomeActivity | RecentsActivity

  /** The part of an ActivityRecord the task reads or writes. */
  class ActivityRecord {
    const fullscreen: bool
    /** FLAG_RELINQUISH_TASK_IDENTITY is set in the activity's info flags. */
    const relinquishesIdentity: bool
    /** info.maxRecents, as declared by the application. */
    const declaredMaxRecents: int
    /** The component name, compared with equals. */
    const realActivity: string
    const persistable: bool
    /** FLAG_ACTIVITY_AUTO_REMOVE_FROM_RECENTS is set in the flags of the activity's intent. */
    const intentAutoRemove: bool
    /** FLAG_AUTO_REMOVE_FROM_RECENTS is set in the activity's info flags. */
    const infoAutoRemove: bool
    var finishing: bool
    var frontOfTask: bool
    var activityType: ActivityType

    constructor(fullscreen: bool, relinquishesIdentity: bool, declaredMaxRecents: int,
                realActivity: string, persistable: bool, activityType: ActivityType, intentAutoRemove: bool,
                infoAutoRemove: bool)
      ensures this.fullscreen == fullscreen && this.relinquishesIdentity == relinquishesIdentity
      ensures this.declaredMaxRecents == declaredMaxRecents && this.realActivity == realActivity
      ensures this.persistable == persistable && this.activityType == activityType
      ensures this.intentAutoRemove == intentAutoRemove && this.infoAutoRemove == infoAutoRemove
      ensures !finishing && !frontOfTask
    {
      this.fullscreen := fullscreen;
      this.relinquishesIdentity := relinquishesIdentity;
      this.declaredMaxRecents := declaredMaxRecents;
      this.realActivity := realActivity;
      this.persistable := persistable;
      this.activityType := activityType;
      this.intentAutoRemove := intentAutoRemove;
      this.infoAutoRemove := infoAutoRemove;
      finishing := false;
      frontOfTask := false;
    }
  }

  // ---------------------------------------------------------------------------
  // numFullscreen.
  // ---------------------------------------------------------------------------

  /** The number of fullscreen activities in the list. */
  function FullscreenCount(s: seq<ActivityRecord>): (n: nat)
    ensures n <= |s|
    decreases |s|
  {
    if s == [] then 0
    else FullscreenCount(s[..|s| - 1]) + (if s[|s| - 1].fullscreen then 1 else 0)
  }

  /** The count is zero exactly when no activity in the list is fullscreen. */
  lemma {:induction false} FullscreenCountZero(s: seq<ActivityRecord>)
    ensures FullscreenCount(s) == 0 <==> forall i | 0 <= i < |s| :: !s[i].fullscreen
    decreases |s|
  {
    if s != [] {
      var n := |s| - 1;
      FullscreenCountZero(s[..n]);
      assert forall i | 0 <= i < n :: s[..n][i] == s[i];
    }
  }

  lemma {:induction false} FullscreenCountAppend(s: seq<ActivityRecord>, t: seq<ActivityRecord>)
    ensures FullscreenCount(s + t) == FullscreenCount(s) + FullscreenCount(t)
    decreases |t|
  {
    if t == [] {
      assert s + t == s;
    } else {
      var n := |t| - 1;
      assert (s + t)[..|s + t| - 1] == s + t[..n];
      FullscreenCountAppend(s, t[..n]);
    }
  }

  lemma FullscreenCountOne(a: ActivityRecord)
    ensures FullscreenCount([a]) == if a.fullscreen then 1 else 0
  {
    assert [a][..0] == [];
  }

  /**
   * Removing an activity takes away one from the fullscreen count exactly when
   * the activity was in the list and is fullscreen.
   */
  lemma FullscreenCountRemove(s: seq<ActivityRecord>, a: ActivityRecord)
    requires NoDuplicates(s)
    ensures FullscreenCount(RemoveFirst(s, a))
         == FullscreenCount(s) - (if a in s && a.fullscreen then 1 else 0)
  {
    if a in s {
      var k :| 0 <= k < |s| && s[k] == a;
      RemoveFirstOfNoDuplicates(s, k);
      var below, above := s[..k], s[k + 1..];
      assert RemoveFirst(s, a) == below + above;
      assert s == below + [a] + above;
      FullscreenCountAppend(below + [a], above);
      FullscreenCountAppend(below, [a]);
      FullscreenCountAppend(below, above);
      FullscreenCountOne(a);
      assert FullscreenCount(s) == FullscreenCount(below) + FullscreenCount([a]) + FullscreenCount(above);
    } else {
      assert RemoveFirst(s, a) == s;
    }
  }

  /** Inserting an activity anywhere adds one to the fullscreen count exactly when it is fullscreen. */
  lemma FullscreenCountInsert(s: seq<ActivityRecord>, index: int, a: ActivityRecord)
    requires 0 <= index <= |s|
    ensures FullscreenCount(s[..index] + [a] + s[index..])
         == FullscreenCount(s) + (if a.fullscreen then 1 else 0)
  {
    assert s == s[..index] + s[index..];
    FullscreenCountAppend(s[..index] + [a], s[index..]);
    FullscreenCountAppend(s[..index], [a]);
    FullscreenCountAppend(s[..index], s[index..]);
    FullscreenCountOne(a);
  }

  /**
   * Putting an absent r in at `index` leaves it present exactly once, taking
   * it out again gives the list back, and the fullscreen count grows by r's own.
   */
  lemma InsertFacts(s: seq<ActivityRecord>, r: ActivityRecord, index: int)
    requires NoDuplicates(s) && r !in s && 0 <= index <= |s|
    ensures var t := s[..index] + [r] + s[index..];
      && NoDuplicates(t) && r in t && RemoveFirst(t, r) == s
      && FullscreenCount(t) == FullscreenCount(s) + (if r.fullscreen then 1 else 0)
  {
    FullscreenCountInsert(s, index, r);
    InsertKeepsNoDuplicates(s, index, r);
    RemoveInserted(s, index, r);
  }

  // ---------------------------------------------------------------------------
  // The read-only searches over the activity list.
  // ---------------------------------------------------------------------------

  /** `i` is the position of the first (bottom-most) activity that is not finishing. */
  ghost predicate IsRoot(s: seq<ActivityRecord>, i: int)
    reads s`finishing
  {
    0 <= i < |s| && !s[i].finishing && forall j | 0 <= j < i :: s[j].finishing
  }

  /** `i` is the position of the last (top-most) activity that is not finishing. */
  ghost predicate IsTop(s: seq<ActivityRecord>, i: int)
    reads s`finishing
  {
    0 <= i < |s| && !s[i].finishing && forall j | i < j < |s| :: s[j].finishing
  }

  /** The upward scan of getRootActivity, from position `from`. */
  function RootIndexFrom(s: seq<ActivityRecord>, from: nat): (k: int)
    reads s`finishing
    requires from <= |s|
    ensures k == -1 || from <= k < |s|
    ensures k >= 0 ==> !s[k].finishing && forall j | from <= j < k :: s[j].finishing
    ensures k == -1 <==> forall j | from <= j < |s| :: s[j].finishing
    decreases |s| - from
  {
    if from == |s| then -1
    else if !s[from].finishing then from
    else RootIndexFrom(s, from + 1)
  }

  /** The downward scan of getTopActivity, over the positions below `below`. */
  function TopIndexBelow(s: seq<ActivityRecord>, below: nat): (k: int)
    reads s`finishing
    requires below <= |s|
    ensures k == -1 || 0 <= k < below
    ensures k >= 0 ==> !s[k].finishing && forall j | k < j < below :: s[j].finishing
    ensures k == -1 <==> forall j | 0 <= j < below :: s[j].finishing
  {
    if below == 0 then -1
    else if !s[below - 1].finishing then below - 1
    else TopIndexBelow(s, below - 1)
  }

  /** getRootActivity: the first activity that is not finishing, or null. */
  function GetRootActivity(s: seq<ActivityRecord>): (r: Option<ActivityRecord>)
    reads s`finishing
    ensures r.None? <==> forall i | 0 <= i < |s| :: s[i].finishing
    ensures forall i | IsRoot(s, i) :: r == Some(s[i])
  {
    var k := RootIndexFrom(s, 0);
    if k < 0 then None else Some(s[k])
  }

  /** getTopActivity: the last activity that is not finishing, or null. */
  function GetTopActivity(s: seq<ActivityRecord>): (r: Option<ActivityRecord>)
    reads s`finishing
    ensures r.None? <==> forall i | 0 <= i < |s| :: s[i].finishing
    ensures forall i | IsTop(s, i) :: r == Some(s[i])
  {
    var k := TopIndexBelow(s, |s|);
    if k < 0 then None else Some(s[k])
  }

  /**
   * findActivityInHistoryLocked's scan from the top, over the positions below
   * `below`: the highest activity that is not finishing and runs the component.
   */
  function HistoryIndexBelow(s: seq<ActivityRecord>, component: string, below: nat): (k: int)
    reads s`finishing
    requires below <= |s|
    ensures k == -1 || 0 <= k < below
    ensures k >= 0 ==> !s[k].finishing && s[k].realActivity == component
    ensures k >= 0 ==> forall j | k < j < below :: s[j].finishing || s[j].realActivity != component
    ensures k == -1 <==> forall j | 0 <= j < below :: s[j].finishing || s[j].realActivity != component
  {
    if below == 0 then -1
    else if !s[below - 1].finishing && s[below - 1].realActivity == component then below - 1
    else HistoryIndexBelow(s, component, below - 1)
  }

  /** findActivityInHistoryLocked: the top-most live activity with r's component, or null. */
  function FindActivityInHistoryLocked(s: seq<ActivityRecord>, r: ActivityRecord): (found: Option<ActivityRecord>)
    reads s`finishing
    ensures found.None? <==> forall j | 0 <= j < |s| :: s[j].finishing || s[j].realActivity != r.realActivity
    ensures found.Some? ==>
      exists k | 0 <= k < |s| ::
        && found.value == s[k] && !s[k].finishing && s[k].realActivity == r.realActivity
        && forall j | k < j < |s| :: s[j].finishing || s[j].realActivity != r.realActivity
  {
    var k := HistoryIndexBelow(s, r.realActivity, |s|);
    if k < 0 then None else Some(s[k])
  }

  /** The loop of findEffectiveRootIndex, from position `from`, never passing the top index. */
  function EffectiveRootFrom(s: seq<ActivityRecord>, from: nat): (k: nat)
    reads s`finishing
    requires from <= |s|
    ensures from <= k && (k < |s| || k == from)
    decreases |s| - from
  {
    if from >= |s| - 1 then from
    else if s[from].finishing || s[from].relinquishesIdentity then EffectiveRootFrom(s, from + 1)
    else from
  }

  /**
   * findEffectiveRootIndex: the first activity that is neither finishing nor
   * relinquishes the task identity, but never past the top activity; 0 for an
   * empty task.
   */
  function FindEffectiveRootIndex(s: seq<ActivityRecord>): (k: nat)
    reads s`finishing
    ensures s == [] ==> k == 0
    ensures s != [] ==> k < |s|
    ensures forall j | 0 <= j < k :: s[j].finishing || s[j].relinquishesIdentity
    ensures k < |s| - 1 ==> !s[k].finishing && !s[k].relinquishesIdentity
  {
    EffectiveRootLemma(s, 0);
    EffectiveRootFrom(s, 0)
  }

  lemma {:induction false} EffectiveRootLemma(s: seq<ActivityRecord>, from: nat)
    requires from <= |s|
    ensures var k := EffectiveRootFrom(s, from);
      (forall j | from <= j < k :: s[j].finishing || s[j].relinquishesIdentity) &&
      (k < |s| - 1 ==> !s[k].finishing && !s[k].relinquishesIdentity)
    decreases |s| - from
  {
    if from < |s| - 1 && (s[from].finishing || s[from].relinquishesIdentity) {
      EffectiveRootLemma(s, from + 1);
    }
  }

  /** The first position at or after `from` whose flag is false, or -1. */
  function FirstUnset(flags: seq<bool>, from: nat): (k: int)
    requires from <= |flags|
    ensures k == -1 || from <= k < |flags|
    ensures k >= 0 ==> !flags[k] && forall j | from <= j < k :: flags[j]
    ensures k == -1 <==> forall j | from <= j < |flags| :: flags[j]
    decreases |flags| - from
  {
    if from == |flags| then -1
    else if !flags[from] then from
    else FirstUnset(flags, from + 1)
  }

  /**
   * When the root activity keeps the task identity, it is the effective root,
   * wherever it stands in the list.
   */
  lemma EffectiveRootIsRoot(s: seq<ActivityRecord>, i: int)
    requires IsRoot(s, i) && !s[i].relinquishesIdentity
    ensures FindEffectiveRootIndex(s) == i
  {
  }

  /** The position setFrontOfTask marks: the first live activity, or the bottom one. */
  function FrontIndex(finishing: seq<bool>): (k: nat)
    ensures finishing != [] ==> k < |finishing|
    ensures (exists i | 0 <= i < |finishing| :: !finishing[i]) ==>
      !finishing[k] && forall j | 0 <= j < k :: finishing[j]
    ensures (forall i | 0 <= i < |finishing| :: finishing[i]) ==> k == 0
  {
    var k := FirstUnset(finishing, 0);
    if k < 0 then 0 else k
  }

  /** The finishing flags of the activities, bottom first. */
  function FinishingFlags(s: seq<ActivityRecord>): (f: seq<bool>)
    reads s`finishing
    ensures |f| == |s| && forall i | 0 <= i < |s| :: f[i] == s[i].finishing
    decreases |s|
  {
    if s == [] then [] else FinishingFlags(s[..|s| - 1]) + [s[|s| - 1].finishing]
  }

  /** The finishing flags are determined by the activities' own flags. */
  lemma FinishingFlagsOf(s: seq<ActivityRecord>, f: seq<bool>)
    requires |f| == |s| && forall i | 0 <= i < |s| :: f[i] == s[i].finishing
    ensures FinishingFlags(s) == f
  {
  }

  /** Clamp of the recents limit declared by the first activity, to [1, 100]. */
  function ClampMaxRecents(declared: int): (m: int)
    ensures 1 <= m <= 100
    ensures 1 <= declared <= 100 ==> m == declared
    ensures declared < 1 ==> m == 1
    ensures 100 < declared ==> m == 100
  {
    if declared < 1 then 1 else if declared > 100 then 100 else declared
  }

  /** The activities at or above the clear position that survive a clear of a restored task. */
  function ClearedActivities(s: seq<ActivityRecord>, finishing: seq<bool>): (t: seq<ActivityRecord>)
    requires |finishing| == |s|
    ensures |t| <= |s|
    decreases |s|
  {
    if s == [] then []
    else
      var n := |s| - 1;
      ClearedActivities(s[..n], finishing[..n]) + (if finishing[n] then [s[n]] else [])
  }

  /**
   * The clear loop has looked at the original activities from `start` up to
   * `j`: those kept sit below the cursor `ndx`, the rest of the original list
   * above it is untouched.
   */
  ghost predicate ClearProgress(current: seq<ActivityRecord>, s0: seq<ActivityRecord>, f0: seq<bool>,
                                start: nat, j: nat, ndx: int)
  {
    && |f0| == |s0| && start <= j <= |s0|
    && var kept := ClearedActivities(s0[start..j], f0[start..j]);
    && current == s0[..start] + kept + s0[j..]
    && ndx == start + |kept|
    && |current| - ndx == |s0| - j
  }

  /** Before the first turn nothing has been looked at. */
  lemma ClearStart(s0: seq<ActivityRecord>, f0: seq<bool>, start: nat)
    requires |f0| == |s0| && start <= |s0|
    ensures ClearProgress(s0, s0, f0, start, start, start)
  {
    assert s0[start..start] == [] && f0[start..start] == [];
    assert s0 == s0[..start] + s0[start..];
  }

  /** A finishing activity under the cursor is kept and the cursor moves past it. */
  lemma ClearKeep(current: seq<ActivityRecord>, s0: seq<ActivityRecord>, f0: seq<bool>, start: nat, j: nat, ndx: int)
    requires ClearProgress(current, s0, f0, start, j, ndx) && j < |s0| && f0[j]
    ensures 0 <= ndx < |current| && current[ndx] == s0[j]
    ensures ClearProgress(current, s0, f0, start, j + 1, ndx + 1)
  {
    var kept := ClearedActivities(s0[start..j], f0[start..j]);
    assert s0[start..j + 1][..j - start] == s0[start..j];
    assert f0[start..j + 1][..j - start] == f0[start..j];
    assert ClearedActivities(s0[start..j + 1], f0[start..j + 1]) == kept + [s0[j]];
    assert s0[j..] == [s0[j]] + s0[j + 1..];
    assert current == s0[..start] + (kept + [s0[j]]) + s0[j + 1..];
  }

  /** An activity under the cursor that is not finishing is cut out and the cursor stays. */
  lemma ClearCut(current: seq<ActivityRecord>, s0: seq<ActivityRecord>, f0: seq<bool>, start: nat, j: nat, ndx: int)
    requires ClearProgress(current, s0, f0, start, j, ndx) && j < |s0| && !f0[j]
    ensures 0 <= ndx < |current| && current[ndx] == s0[j]
    ensures ClearProgress(current[..ndx] + current[ndx + 1..], s0, f0, start, j + 1, ndx)
  {
    var kept := ClearedActivities(s0[start..j], f0[start..j]);
    assert s0[start..j + 1][..j - start] == s0[start..j];
    assert f0[start..j + 1][..j - start] == f0[start..j];
    assert ClearedActivities(s0[start..j + 1], f0[start..j + 1]) == kept;
    assert s0[j..] == [s0[j]] + s0[j + 1..];
    assert current[..ndx] == s0[..start] + kept;
    assert current[ndx + 1..] == s0[j + 1..];
  }

  /** Once every original activity has been looked at, the list is the cleared one. */
  lemma ClearDone(current: seq<ActivityRecord>, s0: seq<ActivityRecord>, f0: seq<bool>, start: nat, ndx: int)
    requires ClearProgress(current, s0, f0, start, |s0|, ndx)
    ensures current == s0[..start] + ClearedActivities(s0[start..], f0[start..])
  {
    assert s0[start..|s0|] == s0[start..] && f0[start..|f0|] == f0[start..];
    assert s0[|s0|..] == [];
  }

  /** A clear from the root position covers the whole list. */
  lemma ClearFromRoot(s: seq<ActivityRecord>, finishing: seq<bool>)
    requires |finishing| == |s|
    ensures s == [] ==> ClearedActivities(s, finishing) == s
    ensures s != [] ==> s[..0] + ClearedActivities(s[0..], finishing[0..]) == ClearedActivities(s, finishing)
  {
    assert s[..0] == [] && s[0..] == s && finishing[0..] == finishing;
  }

  /** Only activities already finishing survive the clear. */
  lemma {:induction false} ClearedActivitiesAreFinishing(s: seq<ActivityRecord>, finishing: seq<bool>)
    requires |finishing| == |s|
    ensures forall a | a in ClearedActivities(s, finishing) ::
      exists i | 0 <= i < |s| :: s[i] == a && finishing[i]
    decreases |s|
  {
    if s != [] {
      var n := |s| - 1;
      var prefix := ClearedActivities(s[..n], finishing[..n]);
      ClearedActivitiesAreFinishing(s[..n], finishing[..n]);
      forall a | a in ClearedActivities(s, finishing)
        ensures exists i | 0 <= i < |s| :: s[i] == a && finishing[i]
      {
        if a in prefix {
          var i :| 0 <= i < n && s[..n][i] == a && finishing[..n][i];
          assert s[i] == a && finishing[i];
        } else {
          assert s[n] == a && finishing[n];
        }
      }
    }
  }

  /** A clear where no activity is finishing leaves nothing at or above the clear position. */
  lemma {:induction false} ClearedActivitiesNoneFinishing(s: seq<ActivityRecord>, finishing: seq<bool>)
    requires |finishing| == |s|
    requires forall i | 0 <= i < |s| :: !finishing[i]
    ensures ClearedActivities(s, finishing) == []
    decreases |s|
  {
    if s != [] {
      var n := |s| - 1;
      assert forall i | 0 <= i < n :: !finishing[..n][i];
      ClearedActivitiesNoneFinishing(s[..n], finishing[..n]);
    }
  }

  /** A clear where every activity is finishing keeps them all, in their original order. */
  lemma {:induction false} ClearedActivitiesAllFinishing(s: seq<ActivityRecord>, finishing: seq<bool>)
    requires |finishing| == |s|
    requires forall i | 0 <= i < |s| :: finishing[i]
    ensures ClearedActivities(s, finishing) == s
    decreases |s|
  {
    if s != [] {
      var n := |s| - 1;
      assert forall i | 0 <= i < n :: finishing[..n][i];
      ClearedActivitiesAllFinishing(s[..n], finishing[..n]);
      assert s == s[..n] + [s[n]];
    }
  }

  // ---------------------------------------------------------------------------
  // The task.
  // ---------------------------------------------------------------------------

  /** The task state the activity-list operations read and write. */
  class TaskRecord {
    /** mActivities, in history order: index 0 is the root, the last is the top. */
    var activities: seq<ActivityRecord>
    var numFullscreen: int
    var taskType: ActivityType
    var isPersistable: bool
    var maxRecents: int
    /** mReuseTask: set while the task is cleared to be reused, so that it is not deleted when it empties. */
    var reuseTask: bool
    var firstActiveTime: int
    var lastActiveTime: int
    var hasBeenVisible: bool
    /** The flags of the task's intent contain FLAG_ACTIVITY_AUTO_REMOVE_FROM_RECENTS; None when the intent is null. */
    var intentAutoRemove: Option<bool>
    var taskToReturnTo: ActivityType
    /** The activity whose intent and info setIntent last gave to the task. */
    var intentSource: Option<ActivityRecord>
    /** mNeverRelinquishIdentity: the original intent did not allow relinquishing the task identity. */
    var neverRelinquishIdentity: bool

    /** An activity is in the list at most once. */
    ghost predicate Valid()
      reads this
    {
      NoDuplicates(activities)
    }

    /**
     * A new, empty task for an intent (the first constructor), whose setIntent
     * finds no intent yet: the task never relinquishes its identity unless the
     * info's flags allow it.
     */
    constructor(intentAutoRemove: Option<bool>, infoRelinquishes: bool)
      ensures Valid() && activities == [] && numFullscreen == 0 && FullscreenCount(activities) == 0
      ensures taskType == ApplicationActivity && taskToReturnTo == ApplicationActivity
      ensures !isPersistable && maxRecents == 0 && !reuseTask && !hasBeenVisible
      ensures firstActiveTime == 0 && lastActiveTime == 0
      ensures this.intentAutoRemove == intentAutoRemove && intentSource == None
      ensures neverRelinquishIdentity == !infoRelinquishes
    {
      activities := [];
      numFullscreen := 0;
      taskType := ApplicationActivity;
      isPersistable := false;
      maxRecents := 0;
      reuseTask := false;
      firstActiveTime := 0;
      lastActiveTime := 0;
      hasBeenVisible := false;
      this.intentAutoRemove := intentAutoRemove;
      taskToReturnTo := ApplicationActivity;
      intentSource := None;
      neverRelinquishIdentity := !infoRelinquishes;
    }

    /**
     * A task restored from persistent storage (the second constructor): it has
     * no stack, returns to home, and does not count its fullscreen activities.
     */
    constructor Restore(activities: seq<ActivityRecord>, taskType: ActivityType,
                        firstActiveTime: int, lastActiveTime: int, intentAutoRemove: Option<bool>,
                        neverRelinquishIdentity: bool)
      requires NoDuplicates(activities)
      ensures Valid() && this.activities == activities && numFullscreen == 0
      ensures this.taskType == taskType && taskToReturnTo == HomeActivity
      ensures !isPersistable && maxRecents == 0 && !reuseTask && !hasBeenVisible
      ensures this.firstActiveTime == firstActiveTime && this.lastActiveTime == lastActiveTime
      ensures this.intentAutoRemove == intentAutoRemove && intentSource == None
      ensures this.neverRelinquishIdentity == neverRelinquishIdentity
    {
      this.activities := activities;
      numFullscreen := 0;
      this.taskType := taskType;
      isPersistable := false;
      maxRecents := 0;
      reuseTask := false;
      this.firstActiveTime := firstActiveTime;
      this.lastActiveTime := lastActiveTime;
      hasBeenVisible := false;
      this.intentAutoRemove := intentAutoRemove;
      taskToReturnTo := HomeActivity;
      intentSource := None;
      this.neverRelinquishIdentity := neverRelinquishIdentity;
    }

    /** touchActiveTime, with the clock reading passed in. */
    method TouchActiveTime(now: int)
      modifies this`firstActiveTime, this`lastActiveTime
      ensures lastActiveTime == now
      ensures old(firstActiveTime) == 0 ==> firstActiveTime == now
      ensures old(firstActiveTime) != 0 ==> firstActiveTime == old(firstActiveTime)
    {
      lastActiveTime := now;
      if firstActiveTime == 0 {
        firstActiveTime := lastActiveTime;
      }
    }

    /**
     * The intent fields after setIntent(r.intent, r.info), given what they were
     * before: a task that has an intent and never relinquishes its identity
     * keeps them all; otherwise the intent and its flags now come from r (the
     * auto-remove flag is added when r's info asks for it), and a
     * task that had no intent first records whether r's info forbids
     * relinquishing the identity.
     */
    ghost predicate IntentSetFrom(r: ActivityRecord, autoRemove0: Option<bool>, never0: bool,
                                  source0: Option<ActivityRecord>)
      reads this
    {
      if autoRemove0.Some? && never0 then
        intentAutoRemove == autoRemove0 && neverRelinquishIdentity == never0 && intentSource == source0
      else
        && intentSource == Some(r) && intentAutoRemove == Some(r.intentAutoRemove || r.infoAutoRemove)
        && neverRelinquishIdentity == (if autoRemove0.None? then !r.relinquishesIdentity else never0)
    }

    /** setIntent with an activity's intent and info. */
    method SetIntent(r: ActivityRecord)
      modifies this`intentSource, this`intentAutoRemove, this`neverRelinquishIdentity
      ensures IntentSetFrom(r, old(intentAutoRemove), old(neverRelinquishIdentity), old(intentSource))
    {
      if intentAutoRemove.None? {
        neverRelinquishIdentity := !r.relinquishesIdentity;
      } else if neverRelinquishIdentity {
        return;
      }
      intentAutoRemove := Some(r.intentAutoRemove || r.infoAutoRemove);
      intentSource := Some(r);
    }

    /** updateEffectiveIntent: setIntent with the effective root activity. */
    method UpdateEffectiveIntent()
      requires activities != []
      modifies this`intentSource, this`intentAutoRemove, this`neverRelinquishIdentity
      ensures IntentSetFrom(activities[FindEffectiveRootIndex(activities)],
                            old(intentAutoRemove), old(neverRelinquishIdentity), old(intentSource))
    {
      var effectiveRootIndex := FindEffectiveRootIndex(activities);
      SetIntent(activities[effectiveRootIndex]);
    }

    /** setFrontOfTask: marks exactly one activity as the front of the task. */
    method SetFrontOfTask()
      requires Valid()
      modifies activities`frontOfTask
      ensures forall i | 0 <= i < |activities| ::
        activities[i].frontOfTask == (i == FrontIndex(FinishingFlags(activities)))
      ensures FindEffectiveRootIndex(activities) == old(FindEffectiveRootIndex(activities))
    {
      ghost var flags := FinishingFlags(activities);
      ghost var first := FirstUnset(flags, 0);
      ghost var front := FrontIndex(flags);
      var foundFront := false;
      var numActivities := |activities|;
      var activityNdx := 0;
      while activityNdx < numActivities
        invariant 0 <= activityNdx <= numActivities == |activities|
        invariant foundFront <==> 0 <= first < activityNdx
        invariant NoDuplicates(activities)
        invariant forall j | 0 <= j < activityNdx :: activities[j].frontOfTask == (j == first)
      {
        var r := activities[activityNdx];
        if foundFront || r.finishing {
          r.frontOfTask := false;
        } else {
          r.frontOfTask := true;
          foundFront := true;
        }
        activityNdx := activityNdx + 1;
      }
      if !foundFront && numActivities > 0 {
        activities[0].frontOfTask := true;
      }
      assert forall i | 0 <= i < |activities| :: activities[i].frontOfTask == (i == front);
      FinishingFlagsOf(activities, flags);
    }

    /**
     * The type fields after r joined a list that, with r taken out, was
     * `removed`, given the task's type, persistability, recents limit and r's
     * type before: the first activity gives the task its type, persistability
     * and clamped recents limit; any later one takes the task's type.
     */
    ghost predicate TypeAdopted(r: ActivityRecord, removed: seq<ActivityRecord>, taskType0: ActivityType,
                                persistable0: bool, maxRecents0: int, activityType0: ActivityType)
      reads this, r
    {
      && (removed == [] ==>
            taskType == activityType0 && r.activityType == activityType0
            && isPersistable == r.persistable && maxRecents == ClampMaxRecents(r.declaredMaxRecents))
      && (removed != [] ==>
            taskType == taskType0 && r.activityType == taskType0
            && isPersistable == persistable0 && maxRecents == maxRecents0)
    }

    /**
     * The first activity of a task gives it its type, persistability and
     * clamped recents limit; any later one takes the task's type.
     */
    method AdoptActivityType(r: ActivityRecord)
      modifies this`taskType, this`isPersistable, this`maxRecents, r`activityType
      ensures activities == [] ==>
        taskType == old(r.activityType) && r.activityType == old(r.activityType)
        && isPersistable == r.persistable && maxRecents == ClampMaxRecents(r.declaredMaxRecents)
      ensures activities != [] ==>
        taskType == old(taskType) && r.activityType == old(taskType)
        && isPersistable == old(isPersistable) && maxRecents == old(maxRecents)
    {
      if activities == [] {
        taskType := r.activityType;
        isPersistable := r.persistable;
        maxRecents := ClampMaxRecents(r.declaredMaxRecents);
      } else {
        r.activityType := taskType;
      }
    }

    /**
     * The first steps of addActivityAtIndex: r is removed from the list, and
     * counted as fullscreen when it was not in it.
     */
    method TakeOut(r: ActivityRecord)
      requires Valid()
      modifies this`activities, this`numFullscreen
      ensures Valid() && r !in activities
      ensures activities == RemoveFirst(old(activities), r)
      ensures numFullscreen == old(numFullscreen) + (if r !in old(activities) && r.fullscreen then 1 else 0)
      ensures FullscreenCount(activities) == old(FullscreenCount(activities)) - (if r in old(activities) && r.fullscreen then 1 else 0)
    {
      var wasPresent := r in activities;
      RemoveFirstKeepsNoDuplicates(activities, r);
      FullscreenCountRemove(activities, r);
      activities := RemoveFirst(activities, r);
      if !wasPresent && r.fullscreen {
        numFullscreen := numFullscreen + 1;
      }
    }

    /**
     * addActivityAtIndex as written: r is first removed from the list, then
     * inserted at `index` of the shortened list, which throws when `index` is
     * past its end; the removal and the type and counter updates stay done.
     */
    method AddActivityAtIndexAsWritten(index: int, r: ActivityRecord) returns (outcome: Outcome)
      requires Valid()
      modifies this`activities, this`numFullscreen, this`taskType, this`isPersistable
      modifies this`maxRecents, this`intentSource, this`intentAutoRemove, this`neverRelinquishIdentity, r`activityType
      ensures Valid()
      ensures numFullscreen == old(numFullscreen) + (if r !in old(activities) && r.fullscreen then 1 else 0)
      ensures var removed := RemoveFirst(old(activities), r);
        && (outcome.Thrown? <==> index < 0 || |removed| < index)
        && (outcome.Thrown? ==> outcome.exception == IndexOutOfBoundsException && activities == removed)
        && (outcome.Done? ==> activities == removed[..index] + [r] + removed[index..])
        && TypeAdopted(r, removed, old(taskType), old(isPersistable), old(maxRecents), old(r.activityType))
      ensures outcome.Done? ==> r in activities && RemoveFirst(activities, r) == RemoveFirst(old(activities), r)
      ensures outcome.Done? ==> numFullscreen - FullscreenCount(activities) == old(numFullscreen - FullscreenCount(activities))
      ensures outcome.Done? ==> IntentSetFrom(activities[FindEffectiveRootIndex(activities)],
                                    old(intentAutoRemove), old(neverRelinquishIdentity), old(intentSource))
      ensures outcome.Thrown? ==>
        && intentAutoRemove == old(intentAutoRemove)
        && neverRelinquishIdentity == old(neverRelinquishIdentity) && intentSource == old(intentSource)
    {
      ghost var removed := RemoveFirst(activities, r);
      TakeOut(r);
      assert activities == removed;
      AdoptActivityType(r);
      ghost var adopted := (taskType, isPersistable, maxRecents, r.activityType, numFullscreen);
      outcome := InsertOrThrow(index, r);
      assert (taskType, isPersistable, maxRecents, r.activityType, numFullscreen) == adopted;
    }

    /**
     * The insertion step of addActivityAtIndex, for an r that is not in the
     * list: ArrayList.add throws past the end; otherwise r goes in at `index`
     * and the effective intent is recomputed.
     */
    method InsertOrThrow(index: int, r: ActivityRecord) returns (outcome: Outcome)
      requires Valid() && r !in activities
      modifies this`activities, this`intentSource, this`intentAutoRemove, this`neverRelinquishIdentity
      ensures Valid()
      ensures outcome.Thrown? <==> index < 0 || |old(activities)| < index
      ensures outcome.Thrown? ==>
        outcome.exception == IndexOutOfBoundsException && activities == old(activities)
        && intentAutoRemove == old(intentAutoRemove)
        && neverRelinquishIdentity == old(neverRelinquishIdentity) && intentSource == old(intentSource)
      ensures outcome.Done? ==>
        && activities == old(activities)[..index] + [r] + old(activities)[index..]
        && r in activities && RemoveFirst(activities, r) == old(activities)
        && FullscreenCount(activities) == old(FullscreenCount(activities)) + (if r.fullscreen then 1 else 0)
        && IntentSetFrom(activities[FindEffectiveRootIndex(activities)],
                                    old(intentAutoRemove), old(neverRelinquishIdentity), old(intentSource))
    {
      var inserted := InsertAt(activities, index, r);
      if inserted.Failure? {
        return Thrown(inserted.error);
      }
      InsertFacts(activities, r, index);
      activities := inserted.value;
      UpdateEffectiveIntent();
      outcome := Done;
    }

    /**
     * addActivityAtIndex with the insertion position clamped to the length of
     * the list once r has been taken out of it, so that re-adding an activity
     * at the old top moves it to the top.
     */
    method AddActivityAtIndex(index: nat, r: ActivityRecord)
      requires Valid()
      modifies this`activities, this`numFullscreen, this`taskType, this`isPersistable
      modifies this`maxRecents, this`intentSource, this`intentAutoRemove, this`neverRelinquishIdentity, r`activityType
      ensures Valid()
      ensures numFullscreen == old(numFullscreen) + (if r !in old(activities) && r.fullscreen then 1 else 0)
      ensures numFullscreen - FullscreenCount(activities) == old(numFullscreen - FullscreenCount(activities))
      ensures var removed := RemoveFirst(old(activities), r);
        var at := if index < |removed| then index else |removed|;
        && activities == removed[..at] + [r] + removed[at..]
        && TypeAdopted(r, removed, old(taskType), old(isPersistable), old(maxRecents), old(r.activityType))
      ensures r in activities && RemoveFirst(activities, r) == RemoveFirst(old(activities), r)
      ensures IntentSetFrom(activities[FindEffectiveRootIndex(activities)],
                                    old(intentAutoRemove), old(neverRelinquishIdentity), old(intentSource))
    {
      var size := |RemoveFirst(activities, r)|;
      var outcome := AddActivityAtIndexAsWritten(if index < size then index else size, r);
    }

    /** addActivityAtBottom: r becomes the root; every other activity keeps its order. */
    method AddActivityAtBottom(r: ActivityRecord)
      requires Valid()
      modifies this`activities, this`numFullscreen, this`taskType, this`isPersistable
      modifies this`maxRecents, this`intentSource, this`intentAutoRemove, this`neverRelinquishIdentity, r`activityType
      ensures Valid()
      ensures activities == [r] + RemoveFirst(old(activities), r)
      ensures numFullscreen - FullscreenCount(activities) == old(numFullscreen - FullscreenCount(activities))
      ensures numFullscreen == old(numFullscreen) + (if r !in old(activities) && r.fullscreen then 1 else 0)
      ensures TypeAdopted(r, RemoveFirst(old(activities), r), old(taskType), old(isPersistable),
                          old(maxRecents), old(r.activityType))
      ensures IntentSetFrom(activities[FindEffectiveRootIndex(activities)],
                            old(intentAutoRemove), old(neverRelinquishIdentity), old(intentSource))
    {
      InsertAtFront(RemoveFirst(activities, r), r);
      AddActivityAtIndex(0, r);
    }

    /**
     * addActivityToTop, through the clamped insertion: r becomes the top and
     * every other activity keeps its order.
     */
    method AddActivityToTop(r: ActivityRecord)
      requires Valid()
      modifies this`activities, this`numFullscreen, this`taskType, this`isPersistable
      modifies this`maxRecents, this`intentSource, this`intentAutoRemove, this`neverRelinquishIdentity, r`activityType
      ensures Valid()
      ensures activities == RemoveFirst(old(activities), r) + [r]
      ensures numFullscreen - FullscreenCount(activities) == old(numFullscreen - FullscreenCount(activities))
      ensures numFullscreen == old(numFullscreen) + (if r !in old(activities) && r.fullscreen then 1 else 0)
      ensures TypeAdopted(r, RemoveFirst(old(activities), r), old(taskType), old(isPersistable),
                          old(maxRecents), old(r.activityType))
      ensures IntentSetFrom(activities[FindEffectiveRootIndex(activities)],
                            old(intentAutoRemove), old(neverRelinquishIdentity), old(intentSource))
    {
      AddActivityAtIndex(|activities|, r);
    }

    /** removeActivity: reports whether the task emptied and is not being reused. */
    method RemoveActivity(r: ActivityRecord) returns (last: bool)
      requires Valid()
      modifies this`activities, this`numFullscreen, this`intentSource, this`intentAutoRemove, this`neverRelinquishIdentity
      ensures Valid()
      ensures activities == RemoveFirst(old(activities), r) && r !in activities
      ensures numFullscreen == old(numFullscreen) - (if r in old(activities) && r.fullscreen then 1 else 0)
      ensures numFullscreen - FullscreenCount(activities) == old(numFullscreen - FullscreenCount(activities))
      ensures last <==> activities == [] && !reuseTask
      ensures activities != [] ==> IntentSetFrom(activities[FindEffectiveRootIndex(activities)],
                                    old(intentAutoRemove), old(neverRelinquishIdentity), old(intentSource))
      ensures activities == [] ==>
        && intentAutoRemove == old(intentAutoRemove)
        && neverRelinquishIdentity == old(neverRelinquishIdentity) && intentSource == old(intentSource)
    {
      var wasPresent := r in activities;
      FullscreenCountRemove(activities, r);
      RemoveFirstKeepsNoDuplicates(activities, r);
      activities := RemoveFirst(activities, r);
      if wasPresent && r.fullscreen {
        numFullscreen := numFullscreen - 1;
      }
      if activities == [] {
        return !reuseTask;
      }
      UpdateEffectiveIntent();
      return false;
    }

    /** moveActivityToFrontLocked: newTop goes to the top and the front-of-task marker is recomputed. */
    method MoveActivityToFrontLocked(newTop: ActivityRecord)
      requires Valid()
      modifies this`activities, this`intentSource, this`intentAutoRemove, this`neverRelinquishIdentity, activities`frontOfTask, newTop`frontOfTask
      ensures Valid()
      ensures activities == RemoveFirst(old(activities), newTop) + [newTop]
      ensures IntentSetFrom(activities[FindEffectiveRootIndex(activities)],
                                    old(intentAutoRemove), old(neverRelinquishIdentity), old(intentSource))
      ensures forall i | 0 <= i < |activities| ::
        activities[i].frontOfTask == (i == FrontIndex(FinishingFlags(activities)))
    {
      MoveToTop(newTop);
      UpdateEffectiveIntent();
      SetFrontOfTask();
    }

    /** The list edit of moveActivityToFrontLocked: newTop is removed and added back on top. */
    method MoveToTop(newTop: ActivityRecord)
      requires Valid()
      modifies this`activities
      ensures Valid()
      ensures activities == RemoveFirst(old(activities), newTop) + [newTop]
      ensures forall i | 0 <= i < |activities| :: activities[i] in old(activities) || activities[i] == newTop
    {
      RemoveFirstKeepsNoDuplicates(activities, newTop);
      var removed := RemoveFirst(activities, newTop);
      InsertKeepsNoDuplicates(removed, |removed|, newTop);
      activities := removed + [newTop];
    }

    /** autoRemoveFromRecents. */
    function AutoRemoveFromRecents(): (remove: bool)
      reads this
      ensures intentAutoRemove == Some(true) ==> remove
      ensures activities != [] ==> (remove <==> intentAutoRemove == Some(true))
      ensures activities == [] ==> (remove <==> intentAutoRemove == Some(true) || !hasBeenVisible)
    {
      (intentAutoRemove.Some? && intentAutoRemove.value) || (activities == [] && !hasBeenVisible)
    }

    /** isOverHomeStack: the task returns to home or to recents when it exits. */
    function IsOverHomeStack(): (over: bool)
      reads this
      ensures over <==> taskToReturnTo != ApplicationActivity
    {
      taskToReturnTo == HomeActivity || taskToReturnTo == RecentsActivity
    }

    /**
     * performClearTaskAtIndexLocked on a task restored from storage (it has no
     * stack): every activity at or above `activityNdx` that is not already
     * finishing is taken out of the list; the fullscreen counter is not touched.
     */
    method PerformClearTaskAtIndexLocked(activityNdx: nat)
      requires Valid()
      modifies this`activities
      ensures Valid()
      ensures activityNdx >= |old(activities)| ==> activities == old(activities)
      ensures activityNdx < |old(activities)| ==>
        activities == old(activities)[..activityNdx]
          + ClearedActivities(old(activities)[activityNdx..], old(FinishingFlags(activities))[activityNdx..])
    {
      var numActivities := |activities|;
      if activityNdx >= numActivities {
        return;
      }
      ghost var s0 := activities;
      ghost var f0 := FinishingFlags(activities);
      ghost var j := activityNdx;
      var ndx: int := activityNdx;
      ClearStart(s0, f0, activityNdx);
      while ndx < numActivities
        invariant ClearProgress(activities, s0, f0, activityNdx, j, ndx)
        invariant numActivities == |activities|
        invariant NoDuplicates(activities)
        decreases |s0| - j
      {
        assert s0[j].finishing == f0[j];
        ndx := ClearOne(ndx, s0, f0, activityNdx, j);
        numActivities := |activities|;
        j := j + 1;
      }
      ClearDone(activities, s0, f0, activityNdx, ndx);
    }

    /**
     * One turn of the clear loop: the activity under the cursor is cut out
     * unless it is finishing; returns the cursor for the next turn.
     */
    method ClearOne(ndx: int, ghost s0: seq<ActivityRecord>, ghost f0: seq<bool>, ghost start: nat, ghost j: nat)
      returns (next: int)
      requires ClearProgress(activities, s0, f0, start, j, ndx) && j < |s0| && s0[j].finishing == f0[j]
      requires NoDuplicates(activities)
      modifies this`activities
      ensures ClearProgress(activities, s0, f0, start, j + 1, next)
      ensures NoDuplicates(activities)
    {
      if f0[j] {
        ClearKeep(activities, s0, f0, start, j, ndx);
      } else {
        ClearCut(activities, s0, f0, start, j, ndx);
      }
      var r := activities[ndx];
      next := ndx;
      if !r.finishing {
        RemoveFirstOfNoDuplicates(activities, ndx);
        activities := activities[..ndx] + activities[ndx + 1..];
        next := next - 1;
      }
      next := next + 1;
    }

    /** performClearTaskLocked: the clear from the root runs with mReuseTask set, and clears it after. */
    method PerformClearTaskLocked()
      requires Valid()
      modifies this`activities, this`reuseTask
      ensures Valid() && !reuseTask
      ensures activities == ClearedActivities(old(activities), old(FinishingFlags(activities)))
    {
      ghost var s0 := activities;
      ghost var f0 := FinishingFlags(activities);
      reuseTask := true;
      assert FinishingFlags(activities) == f0;
      PerformClearTaskAtIndexLocked(0);
      reuseTask := false;
      ClearFromRoot(s0, f0);
    }
  }

  /**
   * The defect of addActivityAtIndex as written: adding an activity that is
   * already in the task at the position the task's size gave before the
   * removal (what addActivityToTop passes) is an insertion past the end.
   */
  lemma AddToTopOfPresentActivityThrows(s: seq<ActivityRecord>, r: ActivityRecord)
    requires r in s
    ensures InsertAt(RemoveFirst(s, r), |s|, r) == Failure(IndexOutOfBoundsException)
  {
  }

  // ---------------------------------------------------------------------------
  // The persisted task description: label and primary color attributes.
  // ---------------------------------------------------------------------------

  const ATTR_TASKDESCRIPTIONLABEL: string := "task_description_label"
  const ATTR_TASKDESCRIPTIONCOLOR: string := "task_description_color"

  const TWO_TO_32: int := 0x1_0000_0000
  const LONG_MIN: int := -0x8000_0000_0000_0000
  const LONG_MAX: int := 0x7FFF_FFFF_FFFF_FFFF

  /** A Java int. */
  newtype Int32 = x: int | -0x8000_0000 <= x < 0x8000_0000

  /** The label and primary color of ActivityManager.TaskDescription; a new one has neither. */
  datatype TaskDescription = TaskDescription(taskLabel: Option<string>, primaryColor: Int32)

  /** Character.digit(ch, 16) for the ASCII digits and letters; -1 for anything else. */
  function HexDigitValue(ch: char): (d: int)
    ensures -1 <= d < 16
    ensures d >= 0 ==> ch != '-' && ch != '+'
  {
    if '0' <= ch <= '9' then ch as int - '0' as int
    else if 'a' <= ch <= 'f' then ch as int - 'a' as int + 10
    else if 'A' <= ch <= 'F' then ch as int - 'A' as int + 10
    else -1
  }

  /** The lower-case digit Integer.toHexString writes for a value below 16. */
  function LowerHexDigit(d: int): (ch: char)
    requires 0 <= d < 16
    ensures HexDigitValue(ch) == d
  {
    if d < 10 then ('0' as int + d) as char else ('a' as int + d - 10) as char
  }

  predicate AllHexDigits(s: string)
  {
    forall i | 0 <= i < |s| :: HexDigitValue(s[i]) >= 0
  }

  /** The value of a string of hexadecimal digits, most significant first. */
  function DigitsValue(s: string): (v: nat)
    requires AllHexDigits(s)
    decreases |s|
  {
    if s == [] then 0 else DigitsValue(s[..|s| - 1]) * 16 + HexDigitValue(s[|s| - 1])
  }

  /**
   * Long.parseLong(s, 16): an optional sign, at least one hexadecimal digit,
   * and a value in the range of a Java long; NumberFormatException otherwise.
   */
  function ParseLongHex(s: string): (r: Result<int, Exception>)
    ensures r.Success? ==> LONG_MIN <= r.value <= LONG_MAX
    ensures r.Failure? ==> r.error == NumberFormatException
    ensures s == [] || s == "-" || s == "+" ==> r.Failure?
  {
    var signed := |s| > 0 && (s[0] == '-' || s[0] == '+');
    var digits := if signed then s[1..] else s;
    if digits == [] || !AllHexDigits(digits) then Failure(NumberFormatException)
    else
      var magnitude := DigitsValue(digits);
      var value: int := if signed && s[0] == '-' then 0 - magnitude as int else magnitude;
      if value < LONG_MIN || LONG_MAX < value then Failure(NumberFormatException) else Success(value)
  }

  /** The (int) cast of a long: the low 32 bits, read as two's complement. */
  function ToInt32(v: int): (r: Int32)
    ensures (v - r as int) % TWO_TO_32 == 0
  {
    var low := v % TWO_TO_32;
    assert v == (v / TWO_TO_32) * TWO_TO_32 + low;
    if low < 0x8000_0000 then low as Int32 else (low - TWO_TO_32) as Int32
  }

  /** The unsigned value of the bits of an int. */
  function Unsigned(c: Int32): (u: nat)
    ensures u < TWO_TO_32 && (u - c as int) % TWO_TO_32 == 0
  {
    if c < 0 then c as int + TWO_TO_32 else c as int
  }

  /** The hexadecimal digits of a natural number, without leading zeros. */
  function UnsignedHex(n: nat): (s: string)
    ensures s != [] && AllHexDigits(s)
    ensures |s| > 1 ==> s[0] != '0'
  {
    if n < 16 then [LowerHexDigit(n)] else UnsignedHex(n / 16) + [LowerHexDigit(n % 16)]
  }

  /** Integer.toHexString: the unsigned value of the int in lower-case hexadecimal. */
  function ToHexString(c: Int32): (s: string)
    ensures s != [] && AllHexDigits(s)
  {
    UnsignedHex(Unsigned(c))
  }

  lemma {:induction false} UnsignedHexValue(n: nat)
    ensures DigitsValue(UnsignedHex(n)) == n
  {
    if n >= 16 {
      var s := UnsignedHex(n);
      UnsignedHexValue(n / 16);
      assert s[..|s| - 1] == UnsignedHex(n / 16);
    }
  }

  /** Reading back the hexadecimal string of an int through parseLong and the cast yields the int. */
  lemma HexColorRoundTrip(c: Int32)
    ensures ParseLongHex(ToHexString(c)) == Success(Unsigned(c))
    ensures ToInt32(Unsigned(c)) == c
  {
    var s := ToHexString(c);
    UnsignedHexValue(Unsigned(c));
    assert HexDigitValue(s[0]) >= 0;
    assert DigitsValue(s) == Unsigned(c) < TWO_TO_32 < LONG_MAX;
    CastOfUnsigned(c);
  }

  lemma CastOfUnsigned(c: Int32)
    ensures ToInt32(Unsigned(c)) == c
  {
    var u := Unsigned(c);
    assert u % TWO_TO_32 == u;
  }

  /** The result of readTaskDescriptionAttribute: whether the attribute was one of its own, and the description. */
  datatype AttributeRead = AttributeRead(recognized: bool, description: TaskDescription)

  /**
   * readTaskDescriptionAttribute: the label attribute sets the label, the color
   * attribute sets the color parsed as a hexadecimal long and cast to int (and
   * throws NumberFormatException on a malformed value), any other attribute is
   * not recognised and changes nothing.
   */
  function ReadTaskDescriptionAttribute(d: TaskDescription, attrName: string, attrValue: string)
    : (r: Result<AttributeRead, Exception>)
    ensures r.Success? && r.value.recognized ==>
      attrName == ATTR_TASKDESCRIPTIONLABEL || attrName == ATTR_TASKDESCRIPTIONCOLOR
    ensures r.Success? && !r.value.recognized ==> r.value.description == d
    ensures attrName == ATTR_TASKDESCRIPTIONLABEL ==>
      r == Success(AttributeRead(true, d.(taskLabel := Some(attrValue))))
    ensures r.Failure? <==> attrName == ATTR_TASKDESCRIPTIONCOLOR && ParseLongHex(attrValue).Failure?
    ensures r.Failure? ==> r.error == NumberFormatException
    ensures r.Success? && attrName == ATTR_TASKDESCRIPTIONCOLOR ==>
      r.value.description.taskLabel == d.taskLabel
      && (ParseLongHex(attrValue).value - r.value.description.primaryColor as int) % TWO_TO_32 == 0
  {
    if attrName == ATTR_TASKDESCRIPTIONLABEL then
      Success(AttributeRead(true, d.(taskLabel := Some(attrValue))))
    else if attrName == ATTR_TASKDESCRIPTIONCOLOR then
      match ParseLongHex(attrValue)
      case Failure(e) => Failure(e)
      case Success(v) => Success(AttributeRead(true, d.(primaryColor := ToInt32(v))))
    else
      Success(AttributeRead(false, d))
  }

  /** saveTaskDescription's attributes: the label when there is one, the color when it is not 0. */
  function SaveTaskDescription(d: TaskDescription): (attrs: seq<(string, string)>)
    ensures |attrs| <= 2
    ensures (exists a | a in attrs :: a.0 == ATTR_TASKDESCRIPTIONLABEL) <==> d.taskLabel.Some?
    ensures (exists a | a in attrs :: a.0 == ATTR_TASKDESCRIPTIONCOLOR) <==> d.primaryColor != 0
    ensures forall a | a in attrs && a.0 == ATTR_TASKDESCRIPTIONLABEL :: Some(a.1) == d.taskLabel
    ensures forall a | a in attrs && a.0 == ATTR_TASKDESCRIPTIONCOLOR :: a.1 == ToHexString(d.primaryColor)
  {
    (if d.taskLabel.Some? then [(ATTR_TASKDESCRIPTIONLABEL, d.taskLabel.value)] else [])
    + (if d.primaryColor != 0 then [(ATTR_TASKDESCRIPTIONCOLOR, ToHexString(d.primaryColor))] else [])
  }

  /**
   * The attribute loop of restoreFromXml, as far as the task description goes:
   * the attributes are read from the last to the first into one description.
   */
  function ReadAttributes(attrs: seq<(string, string)>, d: TaskDescription): (r: Result<TaskDescription, Exception>)
    ensures r.Failure? <==>
      exists i | 0 <= i < |attrs| :: attrs[i].0 == ATTR_TASKDESCRIPTIONCOLOR && ParseLongHex(attrs[i].1).Failure?
    ensures r.Failure? ==> r.error == NumberFormatException
    ensures (forall i | 0 <= i < |attrs| ::
               attrs[i].0 != ATTR_TASKDESCRIPTIONLABEL && attrs[i].0 != ATTR_TASKDESCRIPTIONCOLOR) ==> r == Success(d)
    decreases |attrs|
  {
    if attrs == [] then Success(d)
    else
      var (name, value) := attrs[|attrs| - 1];
      match ReadTaskDescriptionAttribute(d, name, value)
      case Failure(e) => Failure(e)
      case Success(read) => ReadAttributes(attrs[..|attrs| - 1], read.description)
  }

  /** A saved task description reads back, into a new description, as itself. */
  lemma TaskDescriptionRoundTrip(d: TaskDescription)
    ensures ReadAttributes(SaveTaskDescription(d), TaskDescription(None, 0)) == Success(d)
  {
    HexColorRoundTrip(d.primaryColor);
    var attrs := SaveTaskDescription(d);
    if d.taskLabel.Some? && d.primaryColor != 0 {
      var labelAttr := [(ATTR_TASKDESCRIPTIONLABEL, d.taskLabel.value)];
      assert attrs[..1] == labelAttr && labelAttr[..0] == [];
      var colored := TaskDescription(None, d.primaryColor);
      assert ReadTaskDescriptionAttribute(TaskDescription(None, 0), ATTR_TASKDESCRIPTIONCOLOR,
        ToHexString(d.primaryColor)) == Success(AttributeRead(true, colored));
      assert ReadAttributes(labelAttr, colored) == Success(d);
    } else if d.taskLabel.Some? {
      assert attrs[..0] == [];
    } else if d.primaryColor != 0 {
      assert attrs[..0] == [];
    }
  }
}
