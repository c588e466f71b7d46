/**
 Staged rotation of the signing key. The state is three files: the active key, the staged key
 and the keyring of published keys. Each command writes files one at a time, each write being
 atomic; the process may die between any two of them. A key, its pinned public text and its
 key id name each other, so one value stands for all three.
 */
module KeyRotation {
  import opened Outcomes

  type Key = string

  datatype Files = Files(active: Option<Key>, staged: Option<Key>, keyring: seq<Key>)

  datatype Command =
    | Initialize(replace: bool, generated: Key)
    | Prepare(generated: Key, keyringWrite: KeyringWrite)
    | Activate
    | Cancel
    | Retire(keyId: Key)

  /** How the keyring write of a preparation ends: it may raise before or after the file is replaced. */
  datatype KeyringWrite = Done | RaisedBefore | RaisedAfter

  datatype RotationError =
    | AlreadyExists | AlreadyStaged | NoActiveKey | NothingStaged | InUse | NotFound | KeyringFailed

  datatype Write = SetActive(key: Key) | SetStaged(key: Key) | SetKeyring(keys: seq<Key>) | ClearStaged

  // ---------------------------------------------------------------- published keys

  /** First occurrences, in order. */
  function Unique(s: seq<Key>): seq<Key> {
    if s == [] then []
    else
      var u := Unique(s[..|s| - 1]);
      if s[|s| - 1] in u then u else u + [s[|s| - 1]]
  }

  function Optional(key: Option<Key>): seq<Key> { if key.Some? then [key.value] else [] }

  /** The keys a verifier is told to accept: active, retained, staged. */
  function PublicKeys(files: Files): seq<Key>
    requires files.active.Some?
  {
    Unique([files.active.value] + files.keyring + Optional(files.staged))
  }

  /** The keys in the keyring file. */
  function Ring(files: Files): set<Key> { set k | k in files.keyring }

  /** The same as a set, defined also when there is no active key. */
  function Published(files: Files): set<Key> {
    (set k | k in files.keyring) + (if files.active.Some? then {files.active.value} else {})
    + (if files.staged.Some? then {files.staged.value} else {})
  }

  function Except(s: seq<Key>, key: Key): seq<Key> {
    if s == [] then [] else Except(s[..|s| - 1], key) + if s[|s| - 1] == key then [] else [s[|s| - 1]]
  }

  lemma {:induction false} UniqueMembers(s: seq<Key>)
    ensures forall k :: k in Unique(s) <==> k in s
    decreases |s|
  {
    if s != [] {
      UniqueMembers(s[..|s| - 1]);
      assert s == s[..|s| - 1] + [s[|s| - 1]];
    }
  }

  /** `a` occurs in `s` before the first occurrence of `b`. */
  ghost predicate OccursBefore(s: seq<Key>, a: Key, b: Key) {
    exists p :: 0 <= p < |s| && s[p] == a && b !in s[..p + 1]
  }

  /** Each key once, in the order of first occurrence. */
  lemma {:induction false} UniqueInOrder(s: seq<Key>)
    ensures forall i, j :: 0 <= i < j < |Unique(s)| ==>
              Unique(s)[i] != Unique(s)[j] && OccursBefore(s, Unique(s)[i], Unique(s)[j])
    decreases |s|
  {
    if s != [] {
      var n := |s| - 1;
      var before, u := s[..n], Unique(s);
      UniqueInOrder(before);
      UniqueMembers(before);
      forall i, j | 0 <= i < j < |u|
        ensures u[i] != u[j] && OccursBefore(s, u[i], u[j])
      {
        if j < |Unique(before)| {
          assert u[i] == Unique(before)[i] && u[j] == Unique(before)[j];
          assert OccursBefore(before, u[i], u[j]);
          var p :| 0 <= p < n && before[p] == u[i] && u[j] !in before[..p + 1];
          assert s[..p + 1] == before[..p + 1];
        } else {
          assert u[i] in before;
          var p :| 0 <= p < n && before[p] == u[i];
          assert forall k :: k in s[..p + 1] ==> k in before;
        }
      }
    }
  }

  /** The active key comes first in the published list. */
  lemma {:induction false} UniqueFirst(s: seq<Key>)
    requires s != []
    ensures Unique(s) != [] && Unique(s)[0] == s[0]
    decreases |s|
  {
    if |s| > 1 {
      UniqueFirst(s[..|s| - 1]);
    } else {
      assert s[..0] == [];
    }
  }

  lemma {:induction false} ExceptMembers(s: seq<Key>, key: Key)
    ensures forall k :: k in Except(s, key) <==> k in s && k != key
    decreases |s|
  {
    if s != [] {
      ExceptMembers(s[..|s| - 1], key);
      assert s == s[..|s| - 1] + [s[|s| - 1]];
    }
  }

  lemma PublicIsPublished(files: Files)
    requires files.active.Some?
    ensures forall k :: k in PublicKeys(files) <==> k in Published(files)
  {
    UniqueMembers([files.active.value] + files.keyring + Optional(files.staged));
  }

  // ---------------------------------------------------------------- commands as plans of writes

  function Apply(files: Files, w: Write): Files {
    match w
    case SetActive(k) => files.(active := Some(k))
    case SetStaged(k) => files.(staged := Some(k))
    case SetKeyring(ks) => files.(keyring := ks)
    case ClearStaged => files.(staged := None)
  }

  /** The files after the first `count` writes of a plan. */
  function After(files: Files, plan: seq<Write>, count: nat): Files
    decreases count
  {
    if count == 0 || plan == [] then files else After(Apply(files, plan[0]), plan[1..], count - 1)
  }

  /** The writes of a command, in order, or the refusal. */
  function Plan(files: Files, c: Command): Result<seq<Write>, RotationError> {
    match c
    case Initialize(replace, k) =>
      if files.active.Some? && !replace then Err(AlreadyExists)
      else if files.staged.Some? then Err(AlreadyStaged)
      else Ok([SetActive(k), SetKeyring([k])])
    case Prepare(k, keyringWrite) =>
      if files.active.None? then Err(NoActiveKey)
      else if files.staged.Some? then Err(AlreadyStaged)
      else
        var publish := SetKeyring(Unique(PublicKeys(files.(staged := Some(k))) + [k]));
        Ok(match keyringWrite
           case Done => [SetStaged(k), publish]
           case RaisedBefore => [SetStaged(k), ClearStaged]
           case RaisedAfter => [SetStaged(k), publish, ClearStaged])
    case Activate =>
      if files.active.None? then Err(NoActiveKey)
      else if files.staged.None? then Err(NothingStaged)
      else
        var key := files.staged.value;
        Ok([SetKeyring(Unique(PublicKeys(files) + [key])), SetActive(key), ClearStaged])
    case Cancel =>
      if files.active.None? then Err(NoActiveKey)
      else if files.staged.None? then Err(NothingStaged)
      else Ok([SetKeyring(Unique(Except(PublicKeys(files), files.staged.value))), ClearStaged])
    case Retire(k) =>
      if files.active.None? then Err(NoActiveKey)
      else if files.active == Some(k) || files.staged == Some(k) then Err(InUse)
      else if k !in PublicKeys(files) then Err(NotFound)
      else Ok([SetKeyring(Unique(Except(PublicKeys(files), k)))])
  }

  /** Which commands are refused, and why. */
  lemma RefusedIff(files: Files, c: Command)
    ensures Plan(files, c).Ok? <==>
              match c
              case Initialize(replace, _) => (files.active == None || replace) && files.staged == None
              case Prepare(_, _) => files.active != None && files.staged == None
              case Activate => files.active != None && files.staged != None
              case Cancel => files.active != None && files.staged != None
              case Retire(k) =>
                && files.active != None && files.active != Some(k) && files.staged != Some(k)
                && k in Published(files)
    ensures Plan(files, c).Err? ==>
              match Plan(files, c).error
              case AlreadyExists => c.Initialize? && files.active != None && !c.replace
              case AlreadyStaged => (c.Initialize? || c.Prepare?) && files.staged != None
              case NoActiveKey => !c.Initialize? && files.active == None
              case NothingStaged => (c.Activate? || c.Cancel?) && files.active != None && files.staged == None
              case InUse => c.Retire? && (files.active == Some(c.keyId) || files.staged == Some(c.keyId))
              case NotFound => c.Retire? && files.active != None && c.keyId !in Published(files)
              case KeyringFailed => false
  {
    hide Unique, PublicKeys, Except;
    if files.active.Some? { PublicIsPublished(files); }
  }

  /** The files a command leaves when the process dies after `writes` of its writes. */
  function Outcome(files: Files, c: Command, writes: nat): Files {
    match Plan(files, c)
    case Err(_) => files
    case Ok(plan) => After(files, plan, writes)
  }

  lemma AfterSteps(files: Files, plan: seq<Write>, count: nat)
    requires 1 <= |plan| <= 3
    ensures var one := Apply(files, plan[0]);
            After(files, plan, count) ==
              if count == 0 then files
              else if count == 1 || |plan| == 1 then one
              else if count == 2 || |plan| == 2 then Apply(one, plan[1])
              else Apply(Apply(one, plan[1]), plan[2])
  {
    if count > 0 {
      var one, rest := Apply(files, plan[0]), plan[1..];
      assert After(files, plan, count) == After(one, rest, count - 1);
      if |plan| > 1 && count > 1 {
        var two, last := Apply(one, rest[0]), rest[1..];
        assert After(one, rest, count - 1) == After(two, last, count - 2);
        if |plan| > 2 && count > 2 {
          assert After(two, last, count - 2) == After(Apply(two, last[0]), last[1..], count - 3);
          assert last[1..] == [];
        }
      }
    }
  }

  // ---------------------------------------------------------------- the commands on the files

  class KeyHome {
    var active: Option<Key>
    var staged: Option<Key>
    var keyring: seq<Key>
    var budget: nat   // file writes that still happen before the process dies

    function State(): Files
      reads this
    {
      Files(active, staged, keyring)
    }

    method Spend() returns (alive: bool)
      modifies this`budget
      ensures alive <==> old(budget) > 0
      ensures alive ==> budget == old(budget) - 1
    {
      alive := budget > 0;
      if alive { budget := budget - 1; }
    }

    /** Collects the published keys by appending each value not seen yet. */
    method ListPublicKeys() returns (values: seq<Key>)
      requires active.Some?
      ensures values == PublicKeys(State())
      ensures values != [] && values[0] == active.value
      ensures forall i, j :: 0 <= i < j < |values| ==> values[i] != values[j]
      ensures forall k :: k in values <==> k == active.value || k in keyring || staged == Some(k)
    {
      values := [active.value];
      ghost var all := [active.value] + keyring + Optional(staged);
      assert all[..1] == [active.value];
      for i := 0 to |keyring|
        invariant values == Unique(all[..i + 1])
      {
        assert all[..i + 2][..i + 1] == all[..i + 1] && all[i + 1] == keyring[i];
        if keyring[i] !in values { values := values + [keyring[i]]; }
      }
      UniqueInOrder(all);
      UniqueFirst(all);
      UniqueMembers(all);
      if staged.Some? {
        assert all[..|keyring| + 1] == all[..|all| - 1];
        if staged.value !in values { values := values + [staged.value]; }
      } else {
        assert all[..|keyring| + 1] == all;
      }
    }

    method Deduplicate(values: seq<Key>) returns (unique: seq<Key>)
      ensures unique == Unique(values)
    {
      unique := [];
      for i := 0 to |values|
        invariant unique == Unique(values[..i])
      {
        assert values[..i + 1][..i] == values[..i];
        if values[i] !in unique { unique := unique + [values[i]]; }
      }
      assert values[..|values|] == values;
    }

    method InitializeKey(replace: bool, generated: Key) returns (r: Result<Key, RotationError>)
      modifies this
      ensures State() == Outcome(old(State()), Initialize(replace, generated), old(budget))
      ensures r == match Plan(old(State()), Initialize(replace, generated))
                   case Err(e) => Err(e)
                   case Ok(_) => Ok(generated)
    {
      ghost var before, allowed := State(), budget;
      if active.Some? && !replace { return Err(AlreadyExists); }
      if staged.Some? { return Err(AlreadyStaged); }
      r := Ok(generated);
      AfterSteps(before, Plan(before, Initialize(replace, generated)).value, allowed);
      var alive := Spend();
      if !alive { return; }
      active := Some(generated);
      alive := Spend();
      if !alive { return; }
      keyring := [generated];
    }

    /** Stages a new key and publishes it; if the keyring write raises, the staged key is removed. */
    method PrepareRotation(generated: Key, keyringWrite: KeyringWrite)
      returns (r: Result<(Key, Key), RotationError>)
      modifies this
      ensures State() == Outcome(old(State()), Prepare(generated, keyringWrite), old(budget))
      ensures r == match Plan(old(State()), Prepare(generated, keyringWrite))
                   case Err(e) => Err(e)
                   case Ok(_) =>
                     if keyringWrite.Done? then Ok((old(active).value, generated)) else Err(KeyringFailed)
    {
      hide Unique, PublicKeys, Except;
      ghost var before, allowed := State(), budget;
      if active.None? { return Err(NoActiveKey); }
      if staged.Some? { return Err(AlreadyStaged); }
      r := if keyringWrite.Done? then Ok((active.value, generated)) else Err(KeyringFailed);
      AfterSteps(before, Plan(before, Prepare(generated, keyringWrite)).value, allowed);
      var alive := Spend();
      if !alive { return; }
      staged := Some(generated);
      var values := ListPublicKeys();
      values := Deduplicate(values + [generated]);
      if !keyringWrite.RaisedBefore? {
        alive := Spend();
        if !alive { return; }
        keyring := values;
      }
      if !keyringWrite.Done? {
        alive := Spend();
        if !alive { return; }
        staged := None;
      }
    }

    method ActivateRotation() returns (r: Result<(Key, Key), RotationError>)
      modifies this
      ensures State() == Outcome(old(State()), Activate, old(budget))
      ensures r == match Plan(old(State()), Activate)
                   case Err(e) => Err(e)
                   case Ok(_) => Ok((old(active).value, old(staged).value))
    {
      hide Unique, PublicKeys, Except;
      ghost var before, allowed := State(), budget;
      if active.None? { return Err(NoActiveKey); }
      if staged.None? { return Err(NothingStaged); }
      var key := staged.value;
      r := Ok((active.value, key));
      AfterSteps(before, Plan(before, Activate).value, allowed);
      var values := ListPublicKeys();
      values := Deduplicate(values + [key]);
      var alive := Spend();
      if !alive { return; }
      keyring := values;
      alive := Spend();
      if !alive { return; }
      active := Some(key);
      alive := Spend();
      if !alive { return; }
      staged := None;
    }

    method CancelRotation() returns (r: Result<Key, RotationError>)
      modifies this
      ensures State() == Outcome(old(State()), Cancel, old(budget))
      ensures r == match Plan(old(State()), Cancel)
                   case Err(e) => Err(e)
                   case Ok(_) => Ok(old(staged).value)
    {
      hide Unique, PublicKeys, Except;
      ghost var before, allowed := State(), budget;
      if active.None? { return Err(NoActiveKey); }
      if staged.None? { return Err(NothingStaged); }
      r := Ok(staged.value);
      AfterSteps(before, Plan(before, Cancel).value, allowed);
      var values := ListPublicKeys();
      values := Deduplicate(Except(values, staged.value));
      var alive := Spend();
      if !alive { return; }
      keyring := values;
      alive := Spend();
      if !alive { return; }
      staged := None;
    }

    method RetirePublicKey(keyId: Key) returns (r: Result<Key, RotationError>)
      modifies this
      ensures State() == Outcome(old(State()), Retire(keyId), old(budget))
      ensures r == match Plan(old(State()), Retire(keyId))
                   case Err(e) => Err(e)
                   case Ok(_) => Ok(keyId)
    {
      hide Unique, PublicKeys, Except;
      ghost var before, allowed := State(), budget;
      if active.None? { return Err(NoActiveKey); }
      if active == Some(keyId) || staged == Some(keyId) { return Err(InUse); }
      var values := ListPublicKeys();
      if keyId !in values { return Err(NotFound); }
      r := Ok(keyId);
      AfterSteps(before, Plan(before, Retire(keyId)).value, allowed);
      values := Deduplicate(Except(values, keyId));
      var alive := Spend();
      if !alive { return; }
      keyring := values;
    }
  }

  // ---------------------------------------------------------------- what a step does, as sets

  lemma InitializeOutcome(files: Files, replace: bool, k: Key, writes: nat)
    requires Plan(files, Initialize(replace, k)).Ok?
    ensures var after := Outcome(files, Initialize(replace, k), writes);
            && after.active == (if writes >= 1 then Some(k) else files.active)
            && after.staged == None
            && after.keyring == (if writes >= 2 then [k] else files.keyring)
  {
    AfterSteps(files, Plan(files, Initialize(replace, k)).value, writes);
  }

  /** Whether the new key is staged after so many writes. */
  predicate StagedAfter(keyringWrite: KeyringWrite, writes: nat) {
    writes >= 1 && match keyringWrite case Done => true case RaisedBefore => writes < 2 case RaisedAfter => writes < 3
  }

  lemma PrepareOutcome(files: Files, k: Key, keyringWrite: KeyringWrite, writes: nat)
    requires Plan(files, Prepare(k, keyringWrite)).Ok?
    ensures var after := Outcome(files, Prepare(k, keyringWrite), writes);
            var published := StagedAfter(keyringWrite, writes) || (keyringWrite.RaisedAfter? && writes >= 2);
            && after.active == files.active
            && after.staged == (if StagedAfter(keyringWrite, writes) then Some(k) else None)
            && Published(after) == Published(files) + (if published then {k} else {})
            && (!published ==> after == files)
            && Ring(after) ==
               if writes >= 2 && !keyringWrite.RaisedBefore? then Published(files) + {k} else Ring(files)
  {
    hide Unique, PublicKeys;
    var staged := files.(staged := Some(k));
    AfterSteps(files, Plan(files, Prepare(k, keyringWrite)).value, writes);
    PublicIsPublished(staged);
    UniqueMembers(PublicKeys(staged) + [k]);
  }

  lemma ActivateOutcome(files: Files, writes: nat)
    requires Plan(files, Activate).Ok?
    ensures var after := Outcome(files, Activate, writes);
            && after.active == (if writes >= 2 then files.staged else files.active)
            && after.staged == (if writes >= 3 then None else files.staged)
            && Published(after) == Published(files)
            && Ring(after) == (if writes >= 1 then Published(files) else Ring(files))
  {
    hide Unique, PublicKeys;
    AfterSteps(files, Plan(files, Activate).value, writes);
    PublicIsPublished(files);
    UniqueMembers(PublicKeys(files) + [files.staged.value]);
  }

  /** A completed cancellation unpublishes the staged key and nothing else, unless it is also the
      active key; cut off before, it has not unpublished anything yet. */
  lemma CancelOutcome(files: Files, writes: nat)
    requires Plan(files, Cancel).Ok?
    ensures var after := Outcome(files, Cancel, writes);
            && after.active == files.active
            && after.staged == (if writes >= 2 then None else files.staged)
            && Published(after) ==
               (if writes >= 2 && files.staged != files.active then Published(files) - {files.staged.value}
                else Published(files))
            && Ring(after) == (if writes >= 1 then Published(files) - {files.staged.value} else Ring(files))
  {
    hide Unique, PublicKeys, Except;
    AfterSteps(files, Plan(files, Cancel).value, writes);
    PublicIsPublished(files);
    ExceptMembers(PublicKeys(files), files.staged.value);
    UniqueMembers(Except(PublicKeys(files), files.staged.value));
  }

  lemma RetireOutcome(files: Files, k: Key, writes: nat)
    requires Plan(files, Retire(k)).Ok?
    ensures var after := Outcome(files, Retire(k), writes);
            && after.active == files.active && after.staged == files.staged
            && Published(after) == Published(files) - (if writes >= 1 then {k} else {})
            && Ring(after) == (if writes >= 1 then Published(files) - {k} else Ring(files))
  {
    hide Unique, PublicKeys, Except;
    AfterSteps(files, Plan(files, Retire(k)).value, writes);
    PublicIsPublished(files);
    ExceptMembers(PublicKeys(files), k);
    UniqueMembers(Except(PublicKeys(files), k));
  }

  // ---------------------------------------------------------------- whole runs with crashes

  /** The files with their history: keys ever active, keys retired or force-replaced, keys ever generated. */
  datatype World = World(files: Files, everActive: set<Key>, gone: set<Key>, generated: set<Key>)

  predicate Generates(c: Command) { c.Initialize? || c.Prepare? }

  /** One command, cut off after `writes` file writes; new keys are new. A completed retirement
      gives up one key; a replacement whose key file was written gives up all earlier ones. */
  ghost predicate Step(w: World, c: Command, writes: nat, w': World) {
    var runs := Plan(w.files, c).Ok?;
    && (Generates(c) ==> c.generated !in w.generated)
    && w'.files == Outcome(w.files, c, writes)
    && w'.everActive == w.everActive + (if w'.files.active.Some? then {w'.files.active.value} else {})
    && w'.gone == w.gone
         + (if runs && c.Retire? && writes >= 1 then {c.keyId} else {})
         + (if runs && c.Initialize? && writes >= 1 then w.everActive else {})
    && w'.generated == w.generated + (if Generates(c) then {c.generated} else {})
  }

  ghost predicate Inv(w: World) {
    && w.everActive <= w.generated && Published(w.files) <= w.generated
    && (w.files.active.None? ==> w.everActive == {} && w.files.staged.None?)
    && (w.files.active.Some? ==>
          && w.files.active.value in w.everActive - w.gone
          && (w.everActive - w.gone) <= Published(w.files))
    && (w.files.staged.Some? ==>
          && w.files.staged.value !in w.gone
          && (w.files.staged.value in w.everActive ==> w.files.staged == w.files.active))
    && w.gone <= w.generated
  }

  /** Every command keeps every key that is still in force published, wherever it is cut off. */
  lemma StepKeeps(w: World, c: Command, writes: nat, w': World)
    requires Inv(w) && Step(w, c, writes, w')
    ensures Inv(w')
  {
    hide Outcome, Unique, PublicKeys, Except, StagedAfter;
    if Plan(w.files, c).Err? {
      RefusedChangesNothing(w.files, c, writes);
    } else {
      match c
      case Initialize(replace, k) =>
        InitializeOutcome(w.files, replace, k, writes);
      case Prepare(k, keyringWrite) => PrepareOutcome(w.files, k, keyringWrite, writes);
      case Activate => ActivateOutcome(w.files, writes);
      case Cancel => CancelOutcome(w.files, writes);
      case Retire(k) =>
        RetireOutcome(w.files, k, writes);
        PublicIsPublished(w.files);
    }
  }

  /** A home with no files satisfies the invariant: runs have somewhere to begin. */
  lemma EmptyHome()
    ensures Inv(World(Files(None, None, []), {}, {}, {}))
  {
  }

  /** A preparation whose keyring write raised, once rolled back, leaves the files as they were,
      unless the file had been replaced: then the new key stays published, and can be retired. */
  lemma PrepareRollsBack(files: Files, k: Key, keyringWrite: KeyringWrite)
    requires Plan(files, Prepare(k, keyringWrite)).Ok? && !keyringWrite.Done? && k !in Published(files)
    ensures var after := Outcome(files, Prepare(k, keyringWrite), 3);
            && after.active == files.active && after.staged == files.staged
            && (keyringWrite.RaisedBefore? ==> after == files)
            && (keyringWrite.RaisedAfter? ==>
                  Published(after) == Published(files) + {k} && Plan(after, Retire(k)).Ok?)
  {
    hide Outcome, PublicKeys;
    PrepareOutcome(files, k, keyringWrite, 3);
    PublicIsPublished(Outcome(files, Prepare(k, keyringWrite), 3));
  }

  lemma RefusedChangesNothing(files: Files, c: Command, writes: nat)
    requires Plan(files, c).Err?
    ensures Outcome(files, c, writes) == files
  {
  }

  ghost predicate IsRun(run: seq<World>, commands: seq<Command>, cuts: seq<nat>) {
    && |run| == |commands| + 1 == |cuts| + 1
    && forall i :: 0 <= i < |commands| ==> Step(run[i], commands[i], cuts[i], run[i + 1])
  }

  /** Over every run of commands, each cut off anywhere: a key that was ever active and neither
      retired nor force-replaced is still in the published list. */
  lemma {:induction false} KeysStayPublished(run: seq<World>, commands: seq<Command>, cuts: seq<nat>, j: nat)
    requires IsRun(run, commands, cuts) && j < |run| && Inv(run[0])
    ensures Inv(run[j])
    ensures run[j].files.active.Some? ==>
              forall k :: k in run[j].everActive && k !in run[j].gone ==> k in PublicKeys(run[j].files)
    decreases j
  {
    hide Step, PublicKeys;
    if j > 0 {
      KeysStayPublished(run, commands, cuts, j - 1);
      StepKeeps(run[j - 1], commands[j - 1], cuts[j - 1], run[j]);
    }
    if run[j].files.active.Some? { PublicIsPublished(run[j].files); }
  }

  /** A key that was generated and is not published is never published again: new keys are new. */
  lemma StaysUnpublished(w: World, c: Command, writes: nat, w': World, k: Key)
    requires Step(w, c, writes, w') && k in w.generated && k !in Published(w.files)
    ensures k in w'.generated && k !in Published(w'.files)
  {
    hide Outcome, Unique, PublicKeys, Except, StagedAfter;
    if Plan(w.files, c).Err? {
      RefusedChangesNothing(w.files, c, writes);
    } else {
      match c
      case Initialize(replace, generated) => InitializeOutcome(w.files, replace, generated, writes);
      case Prepare(generated, keyringWrite) => PrepareOutcome(w.files, generated, keyringWrite, writes);
      case Activate => ActivateOutcome(w.files, writes);
      case Cancel => CancelOutcome(w.files, writes);
      case Retire(retired) => RetireOutcome(w.files, retired, writes);
    }
  }

  lemma {:induction false} UnpublishedForever(run: seq<World>, commands: seq<Command>, cuts: seq<nat>, i: nat, j: nat,
                                              k: Key)
    requires IsRun(run, commands, cuts) && i <= j < |run|
    requires k in run[i].generated && k !in Published(run[i].files)
    ensures k in run[j].generated && k !in Published(run[j].files)
    decreases j - i
  {
    hide Step, Published;
    if i < j {
      UnpublishedForever(run, commands, cuts, i, j - 1, k);
      StaysUnpublished(run[j - 1], commands[j - 1], cuts[j - 1], run[j], k);
    }
  }

  /** Over every run: a key whose rotation was cancelled, or that was retired, appears in no later
      published list. */
  lemma GoneForGood(run: seq<World>, commands: seq<Command>, cuts: seq<nat>, i: nat, j: nat)
    requires IsRun(run, commands, cuts) && i < j < |run| && Inv(run[0]) && Plan(run[i].files, commands[i]).Ok?
    ensures commands[i].Cancel? && cuts[i] >= 2 && run[i].files.staged != run[i].files.active ==>
              run[i].files.staged.value !in Published(run[j].files)
    ensures commands[i].Retire? && cuts[i] >= 1 ==> commands[i].keyId !in Published(run[j].files)
  {
    KeysStayPublished(run, commands, cuts, i);
    var w, c := run[i], commands[i];
    assert Step(w, c, cuts[i], run[i + 1]);
    hide IsRun, Outcome, Unique, PublicKeys, Except;
    if c.Cancel? && cuts[i] >= 2 && w.files.staged != w.files.active {
      CancelOutcome(w.files, cuts[i]);
      UnpublishedForever(run, commands, cuts, i + 1, j, w.files.staged.value);
    }
    if c.Retire? && cuts[i] >= 1 {
      RetireOutcome(w.files, c.keyId, cuts[i]);
      PublicIsPublished(w.files);
      UnpublishedForever(run, commands, cuts, i + 1, j, c.keyId);
    }
  }

  /** No rotation makes a key active that was not published in the state before. */
  lemma PublishedBeforeActive(files: Files, c: Command, writes: nat)
    requires files.active.Some? && !c.Initialize?
    ensures Outcome(files, c, writes).active.Some?
    ensures Outcome(files, c, writes).active.value in PublicKeys(files)
  {
    hide Outcome, PublicKeys;
    PublicIsPublished(files);
    if Plan(files, c).Err? {
      RefusedChangesNothing(files, c, writes);
    } else {
      match c
      case Prepare(k, keyringWrite) => PrepareOutcome(files, k, keyringWrite, writes);
      case Activate => ActivateOutcome(files, writes);
      case Cancel => CancelOutcome(files, writes);
      case Retire(k) => RetireOutcome(files, k, writes);
    }
  }

  /** A key in use cannot be retired; a key that can be is gone afterwards. */
  lemma RetireIffFree(files: Files, k: Key)
    requires files.active.Some?
    ensures Plan(files, Retire(k)).Ok? <==> k in PublicKeys(files) && files.active != Some(k) && files.staged != Some(k)
    ensures Plan(files, Retire(k)).Ok? ==> k !in PublicKeys(Outcome(files, Retire(k), 1))
  {
    hide Outcome, PublicKeys;
    if Plan(files, Retire(k)).Ok? {
      RetireOutcome(files, k, 1);
      PublicIsPublished(Outcome(files, Retire(k), 1));
    }
  }

  /** An activation cut off anywhere is completed by running it again: same active key, nothing
      staged, the same keys published. */
  lemma ActivationResumes(files: Files, writes: nat)
    requires Plan(files, Activate).Ok? && writes <= 2
    ensures var cut := Outcome(files, Activate, writes);
            var resumed := Outcome(cut, Activate, 3);
            && resumed.active == files.staged && resumed.staged == None
            && Published(resumed) == Published(files)
  {
    hide Outcome;
    ActivateOutcome(files, writes);
    ActivateOutcome(Outcome(files, Activate, writes), 3);
  }
}
