/**
 * The camera director (map-camera.tsx): when a commit of the page may move the map, and where to.
 *
 * A React commit is one step: each effect runs when its dependencies differ from those of the commit before (all of
 * them on mount), in the order they are written. `Step` is the specification of a commit, `CameraDirector` the
 * component with its refs, and the theorems are about runs, that is, sequences of commits.
 */
module MapCamera {
  import opened Options
  import opened Sequences
  import opened MapBounds

  const FOLLOW_ZOOM := 15
  const PROPERTY_ZOOM := 18
  const FIT_MAX_ZOOM := 15

  datatype Focus = Overview | Technician(technicianId: string) | Property(propertyId: string)

  datatype Kind = OVERVIEW | TECHNICIAN | PROPERTY

  datatype Building = Building(id: string, at: MapPoint)

  /** What a commit hands the director. `mapId` is the map it is inside, once there is one. */
  datatype Props = Props(
    mapId: Option<nat>,
    fallback: seq<MapPoint>,
    fitKey: string,
    focus: Focus,
    followed: Option<MapPoint>,
    points: seq<MapPoint>,
    properties: seq<Building>,
    readerMoved: bool,
    recenterRequest: int)

  /** A centre as Mapbox takes it: longitude first. */
  datatype Center = Center(longitude: real, latitude: real)

  datatype Command =
    | EaseTo(center: Center, zoom: Option<int>)
    | FitBounds(box: Box, padding: int, maxZoom: int)

  function Literal(point: MapPoint): Center {
    Center(point.longitude, point.latitude)
  }

  function KindOf(focus: Focus): Kind {
    match focus
    case Overview => OVERVIEW
    case Technician(_) => TECHNICIAN
    case Property(_) => PROPERTY
  }

  function FocusKey(focus: Focus): string {
    match focus
    case Technician(id) => "technician:" + id
    case Property(id) => "property:" + id
    case Overview => "overview"
  }

  /** The key is the focus's identity: two selections have one key only when they pick the same thing. */
  lemma FocusKeyIdentifies(a: Focus, b: Focus)
    ensures FocusKey(a) == FocusKey(b) <==> a == b
  {
    if a.Technician? && b.Technician? {
      assert a.technicianId == FocusKey(a)[11..] && b.technicianId == FocusKey(b)[11..];
    } else if a.Property? && b.Property? {
      assert a.propertyId == FocusKey(a)[9..] && b.propertyId == FocusKey(b)[9..];
    } else if a != b {
      assert FocusKey(a)[0] != FocusKey(b)[0];
    }
  }

  /** `Array.prototype.find` by id: the first building with it, if any. */
  function FindBuilding(buildings: seq<Building>, id: string): (found: Option<Building>)
    ensures found.None? ==> forall b :: b in buildings ==> b.id != id
    ensures found.Some? ==> found.value in buildings && found.value.id == id
  {
    if |buildings| == 0 then None
    else if buildings[0].id == id then Some(buildings[0])
    else FindBuilding(buildings[1..], id)
  }

  // ----- Dependencies

  /** Every dependency of the three effects; `frameOverview` is rebuilt exactly when the map is. */
  datatype Deps = Deps(
    mapId: Option<nat>,
    key: string,
    recenterRequest: int,
    fitKey: string,
    kind: Kind,
    followedAt: Option<MapPoint>)

  function DepsOf(p: Props): Deps {
    Deps(p.mapId, FocusKey(p.focus), p.recenterRequest, p.fitKey, KindOf(p.focus), p.followed)
  }

  predicate FocusChanged(before: Option<Deps>, now: Deps) {
    before.None? || before.value.mapId != now.mapId || before.value.key != now.key
    || before.value.recenterRequest != now.recenterRequest
  }

  predicate FitKeyChanged(before: Option<Deps>, now: Deps) {
    before.None? || before.value.fitKey != now.fitKey || before.value.kind != now.kind
    || before.value.mapId != now.mapId
  }

  predicate PositionChanged(before: Option<Deps>, now: Deps) {
    before.None? || before.value.mapId != now.mapId || before.value.followedAt != now.followedAt
  }

  // ----- One commit

  datatype State = State(deps: Option<Deps>, framedFor: Option<string>)

  datatype Outcome = Outcome(framedFor: Option<string>, commands: seq<Command>)

  function Fit(points: seq<MapPoint>, padding: int): Command
    requires |points| > 0
  {
    FitBounds(BoundingBox(points), padding, FIT_MAX_ZOOM)
  }

  /** A fit of the least box around some points. */
  ghost predicate Frames(command: Command, points: seq<MapPoint>, padding: int) {
    command.FitBounds? && IsTight(command.box, points) && command.padding == padding && command.maxZoom == 15
  }

  lemma FitFrames(points: seq<MapPoint>, padding: int)
    requires |points| > 0
    ensures Frames(Fit(points, padding), points, padding)
  {
    BoundingBoxIsTight(points);
  }

  function FrameOverview(framedFor: Option<string>, p: Props): Outcome {
    if p.mapId.None? || |p.points| == 0 then Outcome(framedFor, [])
    else Outcome(Some(p.fitKey), [Fit(p.points, 48)])
  }

  /** The effect on the pick and the Re-center counter. */
  function FocusEffect(framedFor: Option<string>, p: Props): Outcome {
    if p.mapId.None? then Outcome(framedFor, [])
    else match p.focus
      case Technician(_) =>
        Outcome(framedFor,
                if p.followed.Some? then [EaseTo(Literal(p.followed.value), Some(FOLLOW_ZOOM))]
                else if |p.fallback| > 0 then [Fit(p.fallback, 64)]
                else [])
      case Property(id) =>
        var building := FindBuilding(p.properties, id);
        Outcome(framedFor, if building.None? then [] else [EaseTo(Literal(building.value.at), Some(PROPERTY_ZOOM))])
      case Overview => if p.readerMoved then Outcome(framedFor, []) else FrameOverview(framedFor, p)
  }

  /** The effect on the key. */
  function FitKeyEffect(framedFor: Option<string>, p: Props): Outcome {
    if !p.focus.Overview? || p.readerMoved || framedFor == Some(p.fitKey) then Outcome(framedFor, [])
    else FrameOverview(framedFor, p)
  }

  /** The effect on the followed position: a move without a zoom. */
  function FollowEffect(p: Props): seq<Command> {
    if p.mapId.None? || !p.focus.Technician? || p.readerMoved || p.followed.None? then []
    else [EaseTo(Literal(p.followed.value), None)]
  }

  function Step(s: State, p: Props): (State, seq<Command>) {
    var now := DepsOf(p);
    var a := if FocusChanged(s.deps, now) then FocusEffect(s.framedFor, p) else Outcome(s.framedFor, []);
    var b := if FitKeyChanged(s.deps, now) then FitKeyEffect(a.framedFor, p) else Outcome(a.framedFor, []);
    var c := if PositionChanged(s.deps, now) then FollowEffect(p) else [];
    (State(Some(now), b.framedFor), a.commands + b.commands + c)
  }

  function Commands(s: State, p: Props): seq<Command> {
    Step(s, p).1
  }

  // ----- The component

  /** The map the director commands: it remembers what it was told, in order. */
  class Map {
    var commands: seq<Command>

    constructor ()
      ensures commands == []
    {
      commands := [];
    }

    method Issue(command: Command)
      modifies this
      ensures commands == old(commands) + [command]
    {
      commands := commands + [command];
    }
  }

  class CameraDirector {
    const view: Map
    /** The dependency arrays React kept from the last commit. */
    var deps: Option<Deps>
    var readerHasMoved: bool
    var latest: Option<Props>
    var framedFor: Option<string>

    ghost function Now(): State
      reads this
    {
      State(deps, framedFor)
    }

    constructor (view: Map)
      ensures this.view == view && Now() == State(None, None)
    {
      this.view := view;
      deps, readerHasMoved, latest, framedFor := None, false, None, None;
    }

    method FitTo(points: seq<MapPoint>, padding: int)
      requires |points| > 0
      modifies view
      ensures view.commands == old(view.commands) + [Fit(points, padding)]
      ensures Frames(view.commands[|view.commands| - 1], points, padding)
    {
      var box := FitBox(points);
      view.Issue(FitBounds(box, padding, FIT_MAX_ZOOM));
    }

    method FrameCurrent(mapId: Option<nat>)
      requires latest.Some? && latest.value.mapId == mapId
      modifies this`framedFor, view
      ensures var done := FrameOverview(old(framedFor), latest.value);
              framedFor == done.framedFor && view.commands == old(view.commands) + done.commands
    {
      if mapId.None? || |latest.value.points| == 0 {
        return;
      }
      framedFor := Some(latest.value.fitKey);
      FitTo(latest.value.points, 48);
    }

    method RunFocusEffect(focus: Focus, mapId: Option<nat>)
      requires latest.Some? && latest.value.mapId == mapId && latest.value.focus == focus
      requires readerHasMoved == latest.value.readerMoved
      modifies this`framedFor, view
      ensures var done := FocusEffect(old(framedFor), latest.value);
              framedFor == done.framedFor && view.commands == old(view.commands) + done.commands
    {
      if mapId.None? {
        return;
      }
      match focus {
        case Technician(_) =>
          if latest.value.followed.Some? {
            view.Issue(EaseTo(Literal(latest.value.followed.value), Some(FOLLOW_ZOOM)));
          } else if |latest.value.fallback| > 0 {
            FitTo(latest.value.fallback, 64);
          }
        case Property(id) =>
          var building := FindBuilding(latest.value.properties, id);
          if building.Some? {
            view.Issue(EaseTo(Literal(building.value.at), Some(PROPERTY_ZOOM)));
          }
        case Overview =>
          if !readerHasMoved {
            FrameCurrent(mapId);
          }
      }
    }

    /** One render and its effects. */
    method Commit(p: Props)
      modifies this, view
      ensures Now() == Step(old(Now()), p).0
      ensures view.commands == old(view.commands) + Commands(old(Now()), p)
    {
      ghost var log := view.commands;
      readerHasMoved := p.readerMoved;
      latest := Some(p);
      var before, now := deps, DepsOf(p);
      deps := Some(now);
      if FocusChanged(before, now) {
        RunFocusEffect(p.focus, p.mapId);
      }
      ghost var a := view.commands[|log|..];
      assert view.commands == log + a;
      if FitKeyChanged(before, now) && p.focus.Overview? && !readerHasMoved && framedFor != Some(p.fitKey) {
        FrameCurrent(p.mapId);
      }
      ghost var b := view.commands[|log + a|..];
      assert view.commands == log + (a + b);
      if PositionChanged(before, now) && p.mapId.Some? && p.focus.Technician? && !readerHasMoved {
        if latest.value.followed.Some? {
          view.Issue(EaseTo(Literal(latest.value.followed.value), None));
        }
      }
      ghost var c := view.commands[|log + (a + b)|..];
      assert view.commands == log + (a + b + c);
    }
  }

  // ----- Runs

  /** The state after a run of commits, and the commands of each of them. */
  function After(run: seq<Props>): State {
    if |run| == 0 then State(None, None) else Step(After(run[..|run| - 1]), run[|run| - 1]).0
  }

  function Last(run: seq<Props>): Props
    requires |run| > 0
  {
    run[|run| - 1]
  }

  function Front(run: seq<Props>): seq<Props>
    requires |run| > 0
  {
    run[..|run| - 1]
  }

  /** The commands the last commit of a run issues. */
  function LastCommands(run: seq<Props>): seq<Command>
    requires |run| > 0
  {
    Commands(After(Front(run)), Last(run))
  }

  /** The newest command of a whole run: where the map was last told to be. */
  function NewestCommand(run: seq<Props>): Option<Command> {
    if |run| == 0 then None
    else
      var issued := LastCommands(run);
      if |issued| > 0 then Some(issued[|issued| - 1]) else NewestCommand(Front(run))
  }

  lemma StepRemembersDeps(run: seq<Props>)
    requires |run| > 0
    ensures After(run).deps == Some(DepsOf(Last(run)))
  {
  }

  /** The commit a run ends in is one where something was asked for: a map arrived, a pick changed, or a Re-center. */
  predicate Asked(run: seq<Props>)
    requires |run| > 0
  {
    || |run| == 1
    || Last(run).mapId != Last(Front(run)).mapId
    || Last(run).focus != Last(Front(run)).focus
    || Last(run).recenterRequest != Last(Front(run)).recenterRequest
  }

  /** What an asked-for move has to aim at: a technician's position or stops, or a building that is on the map. */
  predicate HasTarget(p: Props) {
    match p.focus
    case Technician(_) => p.followed.Some? || |p.fallback| > 0
    case Property(id) => exists b :: b in p.properties && b.id == id
    case Overview => false
  }

  lemma AskedMeansFocusChanged(run: seq<Props>)
    requires |run| > 0
    ensures Asked(run) <==> FocusChanged(After(Front(run)).deps, DepsOf(Last(run)))
  {
    if |run| > 1 {
      StepRemembersDeps(Front(run));
      FocusKeyIdentifies(Last(Front(run)).focus, Last(run).focus);
    }
  }

  /**
   * The reader keeps the camera. Once they have moved it, a commit moves it exactly when a technician or a property
   * was asked for and there is somewhere to go; nothing that merely changed on the map ever does.
   */
  lemma ReaderKeepsCamera(run: seq<Props>)
    requires |run| > 0 && Last(run).readerMoved
    ensures LastCommands(run) != [] <==> Last(run).mapId.Some? && Asked(run) && HasTarget(Last(run))
    ensures |LastCommands(run)| <= 1
  {
    AskedMeansFocusChanged(run);
  }

  /**
   * The camera moves on its own for three reasons only: something was asked for, a followed technician moved, or
   * who and what is on the overview changed; and it moves whenever one of them gives it somewhere to go.
   */
  lemma ThreeReasonsOnly(run: seq<Props>)
    requires |run| > 0
    ensures var p := Last(run);
            LastCommands(run) != [] <==>
            && p.mapId.Some?
            && (|| (Asked(run) && HasTarget(p))
                || (Following(p) && (|run| == 1 || p.followed != Last(Front(run)).followed))
                || (&& p.focus.Overview? && !p.readerMoved && |p.points| > 0
                    && (Asked(run)
                        || (p.fitKey != Last(Front(run)).fitKey && After(Front(run)).framedFor != Some(p.fitKey)))))
  {
    AskedMeansFocusChanged(run);
    if |run| > 1 {
      StepRemembersDeps(Front(run));
    }
  }

  /** A move to a point, longitude and latitude each in its place, at a zoom. */
  predicate GoesTo(command: Command, point: MapPoint, zoom: int) {
    && command.EaseTo? && command.zoom == Some(zoom)
    && command.center.longitude == point.longitude && command.center.latitude == point.latitude
  }

  /** What is asked for is what is visited: the newest position, the stops of someone not reporting, the building. */
  lemma PickIsVisited(run: seq<Props>)
    requires |run| > 0 && Asked(run) && Last(run).mapId.Some?
    ensures var p, issued := Last(run), LastCommands(run);
            match p.focus
            case Technician(_) =>
              if p.followed.Some? then |issued| > 0 && GoesTo(issued[0], p.followed.value, 15)
              else if |p.fallback| > 0 then |issued| == 1 && Frames(issued[0], p.fallback, 64)
              else issued == []
            case Property(id) =>
              if HasTarget(p) then
                exists i :: 0 <= i < |p.properties| && p.properties[i].id == id
                            && (forall j :: 0 <= j < i ==> p.properties[j].id != id)
                            && |issued| == 1 && GoesTo(issued[0], p.properties[i].at, 18)
              else issued == []
            case Overview => p.readerMoved ==> issued == []
  {
    AskedMeansFocusChanged(run);
    var p := Last(run);
    if p.focus.Property? {
      FindsTheFirst(p.properties, p.focus.propertyId);
    } else if p.focus.Technician? && |p.fallback| > 0 {
      FitFrames(p.fallback, 64);
    }
  }

  lemma {:induction false} FindsTheFirst(buildings: seq<Building>, id: string)
    ensures var found := FindBuilding(buildings, id);
            found.Some? ==> exists i :: 0 <= i < |buildings| && buildings[i] == found.value
                                        && (forall j :: 0 <= j < i ==> buildings[j].id != id)
  {
    if |buildings| > 0 && buildings[0].id != id {
      FindsTheFirst(buildings[1..], id);
      var found := FindBuilding(buildings, id);
      if found.Some? {
        var k :| 0 <= k < |buildings| - 1 && buildings[1..][k] == found.value
                 && forall j :: 0 <= j < k ==> buildings[1..][j].id != id;
        assert buildings[k + 1] == found.value;
        assert forall j :: 0 < j < k + 1 ==> buildings[j] == buildings[1..][j - 1];
      }
    }
  }

  /** With nothing picked, a reader who has moved the map is never overruled, not even by Re-center's own commit. */
  lemma OverviewNeverOverrulesReader(run: seq<Props>)
    requires |run| > 0 && Last(run).readerMoved && Last(run).focus.Overview?
    ensures LastCommands(run) == []
    ensures After(run).framedFor == After(Front(run)).framedFor
  {
    OverviewFramesAtMostOnce(After(Front(run)), Last(run));
    FramedForFollowsFraming(After(Front(run)), Last(run));
  }

  /** What was framed last changes with a command in overview focus, and only with one. */
  lemma FramedForFollowsFraming(s: State, p: Props)
    ensures Step(s, p).0.framedFor ==
            if p.focus.Overview? && Commands(s, p) != [] then Some(p.fitKey) else s.framedFor
  {
    if p.focus.Overview? {
      OverviewFramesAtMostOnce(s, p);
    }
  }

  /** The page gives the camera back only together with a new pick or a Re-center. */
  predicate Disciplined(run: seq<Props>) {
    forall i :: 0 < i < |run| && run[i - 1].readerMoved && !run[i].readerMoved ==>
      run[i - 1].focus != run[i].focus || run[i - 1].recenterRequest != run[i].recenterRequest
  }

  predicate Following(p: Props) {
    p.mapId.Some? && p.focus.Technician? && p.followed.Some? && !p.readerMoved
  }

  predicate CenteredOn(command: Option<Command>, point: MapPoint) {
    && command.Some? && command.value.EaseTo?
    && command.value.center.longitude == point.longitude && command.value.center.latitude == point.latitude
  }

  /**
   * Following: after every commit of every disciplined run, a technician who is focused, has a position and has not
   * been taken away from by the reader is where the map was last told to be.
   */
  lemma {:induction false} FollowsTechnician(run: seq<Props>)
    requires |run| > 0 && Disciplined(run) && Following(Last(run))
    ensures CenteredOn(NewestCommand(run), Last(run).followed.value)
  {
    var before, p := After(Front(run)), Last(run);
    if !FocusChanged(before.deps, DepsOf(p)) && !PositionChanged(before.deps, DepsOf(p)) {
      StepRemembersDeps(Front(run));
      FocusKeyIdentifies(Last(Front(run)).focus, p.focus);
      assert run[|run| - 2] == Last(Front(run)) && run[|run| - 1] == p;
      assert LastCommands(run) == [];
      FollowsTechnician(Front(run));
    }
  }

  /** The commit a run ends in is one that could have put a followed technician in the middle. */
  predicate Prompts(run: seq<Props>)
    requires |run| > 0
  {
    Asked(run) || Last(run).followed != Last(Front(run)).followed
  }

  function LastPrompt(run: seq<Props>): (at: nat)
    requires |run| > 0
    ensures at < |run| && Prompts(run[..at + 1])
  {
    if Prompts(run) then
      assert run[..|run|] == run;
      |run| - 1
    else
      var earlier := LastPrompt(Front(run));
      assert Front(run)[..earlier + 1] == run[..earlier + 1];
      earlier
  }

  /** Nothing has happened to a followed technician since: not to the camera, nor to what it is about. */
  lemma {:induction false} QuietSincePrompt(run: seq<Props>)
    requires |run| > 0 && Last(run).focus.Technician?
    ensures var at := LastPrompt(run);
            && run[at].mapId == Last(run).mapId && run[at].focus == Last(run).focus
            && run[at].followed == Last(run).followed
            && NewestCommand(run) == NewestCommand(run[..at + 1])
  {
    if Prompts(run) {
      assert run[..|run|] == run;
    } else {
      StepRemembersDeps(Front(run));
      AskedMeansFocusChanged(run);
      assert LastCommands(run) == [];
      QuietSincePrompt(Front(run));
      assert Front(run)[..LastPrompt(run) + 1] == run[..LastPrompt(run) + 1];
    }
  }

  /** What a prompt does: it goes to the technician unless they merely moved while the reader had the camera. */
  lemma {:induction false} PromptCenters(run: seq<Props>)
    requires |run| > 0 && Prompts(run)
    requires Last(run).mapId.Some? && Last(run).focus.Technician? && Last(run).followed.Some?
    ensures Asked(run) || !Last(run).readerMoved ==> CenteredOn(NewestCommand(run), Last(run).followed.value)
    ensures !Asked(run) && Last(run).readerMoved ==> NewestCommand(run) == NewestCommand(Front(run))
  {
    AskedMeansFocusChanged(run);
    if !Asked(run) {
      StepRemembersDeps(Front(run));
    }
  }

  /**
   * Exactly when following holds, disciplined or not. Look back to the last commit that asked for something or brought
   * the technician's position: the map was last told to be where they are if and only if that commit asked, or the
   * reader was not in charge at it, or the map had by chance been told to be there already.
   */
  lemma FollowsExactly(run: seq<Props>)
    requires |run| > 0 && Following(Last(run))
    ensures var at, point := LastPrompt(run), Last(run).followed.value;
            CenteredOn(NewestCommand(run), point) <==>
            Asked(run[..at + 1]) || !run[at].readerMoved || CenteredOn(NewestCommand(run[..at]), point)
  {
    var at := LastPrompt(run);
    QuietSincePrompt(run);
    var prompt := run[..at + 1];
    assert Last(prompt) == run[at] && Front(prompt) == run[..at];
    PromptCenters(prompt);
  }

  /**
   * The discipline is needed: if the page gives the camera back on its own, the map stays where the technician was,
   * for any technician, any map and any two positions.
   */
  lemma UndisciplinedReleaseStaysBehind(start: Props, to: MapPoint)
    requires Following(start) && start.followed.value != to
    ensures var moved := start.(readerMoved := true, followed := Some(to));
            var released := moved.(readerMoved := false);
            var run := [start, moved, released];
            && Following(released) && !Disciplined(run)
            && !CenteredOn(NewestCommand(run), to)
  {
    var moved := start.(readerMoved := true, followed := Some(to));
    var released := moved.(readerMoved := false);
    var run := [start, moved, released];
    assert Front(run) == [start, moved] && Front([start, moved]) == [start] && Front([start]) == [];
    assert LastCommands(run) == [];
    assert LastCommands([start, moved]) == [];
    assert NewestCommand(run) == NewestCommand([start]);
    assert run[1].readerMoved && !run[2].readerMoved;
  }

  /**
   * The overview is framed at most once in a commit, even when its two effects both fire, and exactly when the
   * reader has not moved the map, there is something to frame, and either it was asked for or what is on the map is
   * not what was framed last.
   */
  lemma OverviewFramesAtMostOnce(s: State, p: Props)
    requires p.focus.Overview?
    ensures Commands(s, p) ==
            if && !p.readerMoved && p.mapId.Some? && |p.points| > 0
               && (FocusChanged(s.deps, DepsOf(p))
                   || (FitKeyChanged(s.deps, DepsOf(p)) && s.framedFor != Some(p.fitKey)))
            then [Fit(p.points, 48)] else []
    ensures Commands(s, p) != [] ==> Frames(Commands(s, p)[0], p.points, 48)
  {
    if |p.points| > 0 {
      FitFrames(p.points, 48);
    }
  }

  /** Following leaves the zoom to the reader: a commit that was not asked for moves, and does no more than that. */
  lemma FollowingKeepsTheZoom(run: seq<Props>)
    requires |run| > 0 && !Asked(run) && Last(run).focus.Technician?
    ensures LastCommands(run) != [] ==>
              && |LastCommands(run)| == 1 && LastCommands(run)[0].EaseTo? && LastCommands(run)[0].zoom.None?
              && Last(run).followed.Some? && CenteredOn(Some(LastCommands(run)[0]), Last(run).followed.value)
  {
    AskedMeansFocusChanged(run);
  }

  /** A commit that changes only positions, points, stops or the property list leaves the overview where it is. */
  lemma MovementNeverReframes(run: seq<Props>)
    requires |run| > 1 && Last(run).focus.Overview? && !Asked(run)
    requires Last(run).fitKey == Last(Front(run)).fitKey
    ensures LastCommands(run) == []
  {
    AskedMeansFocusChanged(run);
    StepRemembersDeps(Front(run));
  }

  /** Whether there is anything to frame depends only on who and what is on the map. */
  predicate KeyDecidesEmptiness(run: seq<Props>) {
    forall i :: 0 < i < |run| && run[i - 1].fitKey == run[i].fitKey ==>
      (|run[i - 1].points| > 0 <==> |run[i].points| > 0)
  }

  /**
   * And nobody is missed: in every such run the overview, while it is the map's to move, has been framed for
   * exactly who and what is on the map now.
   */
  lemma {:induction false} OverviewIsFramedForWhatIsThere(run: seq<Props>)
    requires |run| > 0 && Disciplined(run) && KeyDecidesEmptiness(run)
    requires Last(run).focus.Overview? && Last(run).mapId.Some? && !Last(run).readerMoved && |Last(run).points| > 0
    ensures After(run).framedFor == Some(Last(run).fitKey)
  {
    var before, p := After(Front(run)), Last(run);
    if !FocusChanged(before.deps, DepsOf(p)) && !FitKeyChanged(before.deps, DepsOf(p)) {
      StepRemembersDeps(Front(run));
      FocusKeyIdentifies(Last(Front(run)).focus, p.focus);
      assert run[|run| - 2] == Last(Front(run)) && run[|run| - 1] == p;
      OverviewIsFramedForWhatIsThere(Front(run));
    }
  }

  /** What each commit of a run issued. */
  function Log(run: seq<Props>): (log: seq<seq<Command>>)
    ensures |log| == |run|
  {
    if |run| == 0 then [] else Log(Front(run)) + [LastCommands(run)]
  }

  function IsSome(): seq<Command> -> bool {
    (commands: seq<Command>) => commands != []
  }

  /** The commit that issued the newest command. */
  function LastCommanded(run: seq<Props>): Option<nat> {
    LastIndex(Log(run), IsSome())
  }

  /** The last command of a log, and where it stands. */
  function NewestOf(log: seq<seq<Command>>): Option<Command> {
    var at := LastIndex(log, IsSome());
    if at.None? then None else Some(log[at.value][|log[at.value]| - 1])
  }

  lemma {:induction false} NewestOfMore(log: seq<seq<Command>>, issued: seq<Command>)
    ensures NewestOf(log + [issued]) == if issued != [] then Some(issued[|issued| - 1]) else NewestOf(log)
  {
    LastIndexMore(log, issued, IsSome());
  }

  lemma {:induction false} NewestIsLogged(run: seq<Props>)
    ensures NewestCommand(run) == NewestOf(Log(run))
  {
    if |run| == 0 {
    } else {
      NewestIsLogged(Front(run));
      NewestOfMore(Log(Front(run)), LastCommands(run));
    }
  }

  /** The last thing the map was told was to frame the overview, at a commit with this key. */
  ghost predicate Shows(run: seq<Props>, key: string) {
    var at := LastCommanded(run);
    && at.Some? && run[at.value].focus.Overview? && run[at.value].fitKey == key && |run[at.value].points| > 0
    && NewestCommand(run).Some? && Frames(NewestCommand(run).value, run[at.value].points, 48)
  }

  lemma ShowsLater(run: seq<Props>, key: string)
    requires |run| > 0 && LastCommands(run) == []
    ensures Shows(run, key) <==> Shows(Front(run), key)
  {
    LastIndexMore(Log(Front(run)), LastCommands(run), IsSome());
  }

  /** The commit a run ends in is one at which the overview could have been framed. */
  predicate Reframes(run: seq<Props>)
    requires |run| > 0
  {
    Asked(run) || Last(run).fitKey != Last(Front(run)).fitKey
  }

  /** The overview is framed at a commit: it is the map's to move, and was asked for or is not what was framed last. */
  predicate Framed(run: seq<Props>)
    requires |run| > 0
  {
    && !Last(run).readerMoved && |Last(run).points| > 0
    && (Asked(run) || After(Front(run)).framedFor != Some(Last(run).fitKey))
  }

  lemma {:induction false} ReframeShows(run: seq<Props>)
    requires |run| > 0 && Reframes(run) && Last(run).focus.Overview? && Last(run).mapId.Some?
    ensures Framed(run) ==> Shows(run, Last(run).fitKey)
    ensures !Framed(run) ==> (Shows(run, Last(run).fitKey) <==> Shows(Front(run), Last(run).fitKey))
  {
    AskedMeansFocusChanged(run);
    OverviewFramesAtMostOnce(After(Front(run)), Last(run));
    if !Asked(run) {
      StepRemembersDeps(Front(run));
    }
    if !Framed(run) {
      ShowsLater(run, Last(run).fitKey);
    }
  }

  /** Which commits framed the overview, by what each of them issued. */
  function Framing(run: seq<Props>, log: seq<seq<Command>>): (framings: seq<bool>)
    requires |log| == |run|
    ensures |framings| == |run|
    ensures forall i :: 0 <= i < |run| ==> framings[i] == (run[i].focus.Overview? && log[i] != [])
  {
    seq(|run|, i requires 0 <= i < |run| => run[i].focus.Overview? && log[i] != [])
  }

  lemma FramingGrows(run: seq<Props>, log: seq<seq<Command>>, p: Props, issued: seq<Command>)
    requires |log| == |run|
    ensures Framing(run + [p], log + [issued]) == Framing(run, log) + [p.focus.Overview? && issued != []]
  {
  }

  function Framings(run: seq<Props>): (framings: seq<bool>)
    ensures |framings| == |run|
  {
    Framing(run, Log(run))
  }

  function IsTrue(): bool -> bool {
    (b: bool) => b
  }

  /** The last commit that framed the overview. */
  function LastFraming(run: seq<Props>): Option<nat> {
    LastIndex(Framings(run), IsTrue())
  }

  /** The last commit that asked for something. */
  function LastAsked(run: seq<Props>): (at: nat)
    requires |run| > 0
    ensures at < |run|
  {
    if Asked(run) then |run| - 1 else LastAsked(Front(run))
  }

  lemma {:induction false} FramingsGrow(run: seq<Props>)
    requires |run| > 0
    ensures Framings(run) == Framings(Front(run)) + [Last(run).focus.Overview? && LastCommands(run) != []]
  {
    assert run == Front(run) + [Last(run)];
    FramingGrows(Front(run), Log(Front(run)), Last(run), LastCommands(run));
  }

  lemma {:induction false} LogIsTold(run: seq<Props>, i: nat)
    requires i < |run|
    ensures Log(run)[i] == LastCommands(run[..i + 1])
  {
    if i == |run| - 1 {
      assert run[..i + 1] == run;
    } else {
      LogIsTold(Front(run), i);
      assert run[..i + 1] == Front(run)[..i + 1];
    }
  }

  lemma {:induction false} FramedForIsTheLastFraming(run: seq<Props>)
    ensures var at := LastFraming(run);
            After(run).framedFor == if at.None? then None else Some(run[at.value].fitKey)
  {
    if |run| == 0 {
    } else {
      FramedForFollowsFraming(After(Front(run)), Last(run));
      FramedForIsTheLastFraming(Front(run));
      FramingsGrow(run);
      LastIndexMore(Framings(Front(run)), Last(run).focus.Overview? && LastCommands(run) != [], IsTrue());
    }
  }

  /** The map was told nothing from one commit up to another, neither of them included. */
  predicate SilentBetween(run: seq<Props>, from: nat, to: nat)
    requires to <= |run|
  {
    forall i :: from < i < to ==> Log(run)[i] == []
  }

  /** Since the last commit that asked for something the camera has been about the same thing. */
  lemma {:induction false} SameSinceAsked(run: seq<Props>, i: nat)
    requires |run| > 0 && LastAsked(run) <= i < |run|
    ensures run[i].focus == Last(run).focus
  {
    if i == |run| - 1 {
    } else {
      assert Front(run)[i] == run[i];
      SameSinceAsked(Front(run), i);
    }
  }

  lemma FramingIssues(run: seq<Props>, at: nat)
    requires at < |run| && Framings(run)[at]
    ensures |run[at].points| > 0 && Log(run)[at] == [Fit(run[at].points, 48)]
  {
    LogIsTold(run, at);
    assert Last(run[..at + 1]) == run[at];
    OverviewFramesAtMostOnce(After(Front(run[..at + 1])), run[at]);
  }

  /** A log's last command is at one of its places exactly when the places after it are empty. */
  lemma LastCommandIsAt(log: seq<seq<Command>>, at: nat)
    requires at < |log| && log[at] != []
    ensures LastIndex(log, IsSome()) == Some(at) <==> forall i :: at < i < |log| ==> log[i] == []
  {
    assert IsSome()(log[at]);
    var last := LastIndex(log, IsSome());
    assert last.Some? && last.value >= at;
    assert IsSome()(log[last.value]);
    forall i | last.value < i < |log| ensures log[i] == [] {
      assert !IsSome()(log[i]);
    }
  }

  /** The last framing is at one of the places exactly when it is a framing and none follows it. */
  lemma LastFramingIsAt(framings: seq<bool>, at: nat)
    requires at < |framings| && framings[at]
    ensures LastIndex(framings, IsTrue()) == Some(at) <==> forall i :: at < i < |framings| ==> !framings[i]
  {
    assert IsTrue()(framings[at]);
    var last := LastIndex(framings, IsTrue());
    assert last.Some? && last.value >= at;
    assert IsTrue()(framings[last.value]);
    forall i | last.value < i < |framings| ensures !framings[i] {
      assert !IsTrue()(framings[i]);
    }
  }

  /**
   * In any run the overview with a key is what the map was last told to show exactly when it was framed last for that
   * key and the map has been told nothing since.
   */
  lemma {:induction false} FramingShows(run: seq<Props>, key: string)
    ensures var framed := LastFraming(run);
            Shows(run, key) <==>
            framed.Some? && run[framed.value].fitKey == key && SilentBetween(run, framed.value, |run|)
  {
    NewestIsLogged(run);
    var framed, at := LastFraming(run), LastCommanded(run);
    if framed.Some? {
      assert IsTrue()(Framings(run)[framed.value]);
      FramingIssues(run, framed.value);
      FitFrames(run[framed.value].points, 48);
      LastCommandIsAt(Log(run), framed.value);
    }
    if Shows(run, key) {
      assert IsSome()(Log(run)[at.value]);
      LastCommandIsAt(Log(run), at.value);
      LastFramingIsAt(Framings(run), at.value);
    }
  }

  /**
   * Exactly when the overview is on screen. In a disciplined run the overview of who and what is on the map is what the
   * map was last told to show, if and only if it was framed at or after the last commit that asked for something, or
   * the map was told nothing between its framing and that commit.
   */
  lemma {:induction false} OverviewShowsExactly(run: seq<Props>)
    requires |run| > 0 && Disciplined(run) && KeyDecidesEmptiness(run)
    requires Last(run).focus.Overview? && Last(run).mapId.Some? && !Last(run).readerMoved && |Last(run).points| > 0
    ensures LastFraming(run).Some?
    ensures var framed, asked := LastFraming(run).value, LastAsked(run);
            Shows(run, Last(run).fitKey) <==> framed >= asked || SilentBetween(run, framed, asked)
  {
    OverviewIsFramedForWhatIsThere(run);
    FramedForIsTheLastFraming(run);
    var framed, asked := LastFraming(run).value, LastAsked(run);
    FramingShows(run, Last(run).fitKey);
    forall i | framed < i < |run| && asked <= i ensures Log(run)[i] == [] {
      SameSinceAsked(run, i);
      assert !IsTrue()(Framings(run)[i]);
    }
  }

  /** What has been on the map since something was is never nothing. */
  predicate NeverEmptied(run: seq<Props>) {
    forall i :: 0 < i < |run| && |run[i - 1].points| > 0 ==> |run[i].points| > 0
  }

  lemma {:induction false} NothingYetFramed(run: seq<Props>)
    requires |run| > 0 && NeverEmptied(run) && |Last(run).points| == 0
    ensures After(run).framedFor.None?
  {
    FramedForFollowsFraming(After(Front(run)), Last(run));
    if Last(run).focus.Overview? {
      OverviewFramesAtMostOnce(After(Front(run)), Last(run));
    }
    if |run| == 1 {
    } else {
      assert run[|run| - 2] == Last(Front(run)) && run[|run| - 1] == Last(run);
      NothingYetFramed(Front(run));
    }
  }

  /**
   * So the overview is on screen: in every such run in which the map is not emptied, the last thing the map was told,
   * while the overview is its to move, was to frame who and what is on it.
   */
  lemma {:induction false} OverviewStaysOnScreen(run: seq<Props>)
    requires |run| > 0 && Disciplined(run) && KeyDecidesEmptiness(run) && NeverEmptied(run)
    requires Last(run).focus.Overview? && Last(run).mapId.Some? && !Last(run).readerMoved && |Last(run).points| > 0
    ensures Shows(run, Last(run).fitKey)
  {
    var before, p := After(Front(run)), Last(run);
    AskedMeansFocusChanged(run);
    if Reframes(run) && Framed(run) {
      ReframeShows(run);
    } else {
      var earlier := Last(Front(run));
      StepRemembersDeps(Front(run));
      assert run[|run| - 2] == earlier && run[|run| - 1] == p;
      if |earlier.points| == 0 {
        NothingYetFramed(Front(run));
      }
      OverviewIsFramedForWhatIsThere(Front(run));
      OverviewFramesAtMostOnce(before, p);
      OverviewStaysOnScreen(Front(run));
      ShowsLater(run, p.fitKey);
    }
  }

  /** Nothing to go to: a technician who is nowhere, an overview of nothing, or one that counts as framed already. */
  predicate NothingToShow(run: seq<Props>, p: Props)
    requires |run| > 0
  {
    || (p.focus.Technician? && p.focus == Last(run).focus && p.followed.None?)
    || (p.focus.Overview? && |p.points| == 0)
    || (p.focus.Overview? && p.focus == Last(run).focus
        && (p.fitKey == Last(run).fitKey || After(run).framedFor == Some(p.fitKey)))
  }

  /** With nothing asked for either, one more commit leaves the map, and what was framed last, as they are. */
  lemma {:induction false} OneMoreSilent(run: seq<Props>, p: Props)
    requires |run| > 0 && p.mapId == Last(run).mapId && p.recenterRequest == Last(run).recenterRequest
    requires NothingToShow(run, p)
    ensures NewestCommand(run + [p]) == NewestCommand(run) && After(run + [p]).framedFor == After(run).framedFor
  {
    assert Front(run + [p]) == run;
    ThreeReasonsOnly(run + [p]);
    FramedForFollowsFraming(After(run), p);
  }

  /**
   * What tells a person's camera move from the map's own: the event carries the gesture that caused it, and the
   * gesture was not on one of the console's own controls.
   */
  datatype CameraEvent = CameraEvent(byPerson: bool, onOverlay: bool)

  predicate ReaderTookOver(event: CameraEvent) {
    event.byPerson && !event.onOverlay
  }
}
