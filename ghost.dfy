/** The replay's data model: geometry values, the event taxonomy, the
    per-tick frame record and the replay aggregate (`src/ghost.rs`). */
module GhostTypes {
  import opened Text

  /** `Result<T, &'static str>`; the message text carries no meaning here. */
  datatype Result<T> = Ok(value: T) | Err

  /** A three-component vector, a `Copy` value. */
  datatype Vector3 = Vector3(x: real, y: real, z: real)
  {
    /** `add`: the componentwise sum. The source updates `self` in place; as
        a value, the updated vector is the result. */
    function Add(v: Vector3): (r: Vector3)
      ensures r.x == x + v.x && r.y == y + v.y && r.z == z + v.z
    {
      Vector3(x + v.x, y + v.y, z + v.z)
    }

    /** Component `i` (0 is x, 1 is y, 2 is z). */
    function Coordinate(i: nat): real
      requires i < 3
    {
      if i == 0 then x else if i == 1 then y else z
    }
  }

  const Origin: Vector3 := Vector3(0.0, 0.0, 0.0)

  /** What `from_string` stores for field `i` of the comma-split text: the
      parsed number, 0.0 for text that is not a number, and 0.0 when there is
      no such field. */
  function FieldOrZero(fields: seq<string>, i: nat): real
  {
    if i < |fields| then
      match ParseF64(fields[i])
      case Some(v) => v
      case None => 0.0
    else 0.0
  }

  /** The meaning of `Vector3::from_string`: comma-split text of at most three
      fields, each a coordinate in order. */
  function ParseVector(s: string): Result<Vector3>
  {
    var fields := Split(s, ',');
    if |fields| > 3 then Err
    else Ok(Vector3(FieldOrZero(fields, 0), FieldOrZero(fields, 1), FieldOrZero(fields, 2)))
  }

  /** `Vector3::from_string`: walks the comma-separated fields with a counter,
      writing x, y and z in turn and failing on a fourth field. */
  method Vector3FromString(s: string) returns (r: Result<Vector3>)
    ensures r == ParseVector(s)
  {
    var fields := Split(s, ',');
    var idx := 0;
    var result := Origin;
    while idx < |fields|
      invariant 0 <= idx <= |fields| && idx <= 3
      invariant result == Vector3(FieldOrZero(fields[..idx], 0), FieldOrZero(fields[..idx], 1),
                                  FieldOrZero(fields[..idx], 2))
    {
      var val := match ParseF64(fields[idx]) case Some(v) => v case None => 0.0;
      if idx == 0 {
        result := result.(x := val);
      } else if idx == 1 {
        result := result.(y := val);
      } else if idx == 2 {
        result := result.(z := val);
      } else {
        return Err;
      }
      idx := idx + 1;
    }
    assert fields[..idx] == fields;
    r := Ok(result);
  }

  /** Parsing fails exactly on a fourth field, that is, on a third comma;
      a field that is not a number gives 0.0 and a missing one stays 0.0. */
  lemma ParseVectorSpec(s: string)
    ensures ParseVector(s).Err? <==> Count(s, ',') > 2
    ensures ParseVector(s).Ok? ==> forall i :: 0 <= i < 3 ==>
      ParseVector(s).value.Coordinate(i) ==
        (if i < |Split(s, ',')| && ParseF64(Split(s, ',')[i]).Some?
         then ParseF64(Split(s, ',')[i]).value else 0.0)
  {
    SplitCount(s, ',');
  }

  /** A single decimal digit reads as its value. */
  lemma SingleDigit(c: char)
    requires IsDigit(c)
    ensures ParseF64([c]) == Some((c as int - '0' as int) as real)
  {
    assert ExponentMark([c]) == 1;
    assert [c][..1] == [c];
    assert DigitsValue([c]) == DigitsValue([]) * 10 + (c as int - '0' as int);
  }

  lemma SmallNumbers()
    ensures ParseF64("1") == Some(1.0) && ParseF64("2") == Some(2.0) && ParseF64("3") == Some(3.0)
    ensures ParseF64("x").None?
  {
    SingleDigit('1');
    SingleDigit('2');
    SingleDigit('3');
    assert ExponentMark("x") == 1;
    assert "x"[..1] == "x";
  }

  lemma SplitThreeFields()
    ensures Split("x,2,3", ',') == ["x", "2", "3"]
  {
    SplitAt("x,2,3", ',', 1);
    assert "x,2,3"[..1] == "x" && "x,2,3"[2..] == "2,3";
    SplitAt("2,3", ',', 1);
    assert "2,3"[..1] == "2" && "2,3"[2..] == "3";
    assert Split("3", ',') == ["3"];
  }

  lemma SplitTwoFields()
    ensures Split("1,2", ',') == ["1", "2"]
  {
    SplitAt("1,2", ',', 1);
    assert "1,2"[..1] == "1" && "1,2"[2..] == "2";
    assert Split("2", ',') == ["2"];
  }

  /** The example `"x,2,3"`: the field that is not a number becomes 0.0. */
  lemma ParseVectorNonNumeric()
    ensures ParseVector("x,2,3") == Ok(Vector3(0.0, 2.0, 3.0))
  {
    SplitThreeFields();
    SmallNumbers();
  }

  /** The example `"1,2"`: the missing z stays 0.0. */
  lemma ParseVectorMissingField()
    ensures ParseVector("1,2") == Ok(Vector3(1.0, 2.0, 0.0))
  {
    SplitTwoFields();
    SmallNumbers();
  }

  /** The example `""`: no field at all gives the origin. */
  lemma ParseVectorEmpty()
    ensures ParseVector("") == Ok(Origin)
  {
    assert Split("", ',') == [""];
    assert ParseF64("").None?;
  }

  /** The example `"1,2,3,4"`: a fourth field is an error. */
  lemma ParseVectorTooLong()
    ensures ParseVector("1,2,3,4").Err?
  {
    SplitAt("1,2,3,4", ',', 1);
    assert "1,2,3,4"[2..] == "2,3,4";
    SplitAt("2,3,4", ',', 1);
    assert "2,3,4"[2..] == "3,4";
    SplitAt("3,4", ',', 1);
  }

  /** The weapon fired, numbered 0 to 4 in declaration order. */
  datatype BulletType = Swipe | SingleShot | Scatter | Rocket | Mine
  {
    function Ordinal(): nat
    {
      match this
      case Swipe => 0
      case SingleShot => 1
      case Scatter => 2
      case Rocket => 3
      case Mine => 4
    }

    /** `BulletType::from_trigger_event`: the event code less 10 is the ordinal. */
    static function FromTriggerEvent(i: int): (r: Result<BulletType>)
      ensures r.Ok? <==> 0 <= i - 10 <= 4
      ensures r.Ok? ==> r.value.Ordinal() == i - 10
    {
      match i - 10
      case 0 => Ok(Swipe)
      case 1 => Ok(SingleShot)
      case 2 => Ok(Scatter)
      case 3 => Ok(BulletType.Rocket)
      case 4 => Ok(BulletType.Mine)
      case _ => Err
    }
  }

  /** The sub-codes `DiscardAbility` lists, not contiguous. */
  const DiscardCodes: set<int> :=
    {10, 15, 20, 30, 40, 50, 60, 70, 80, 90, 100, 110, 120, 130, 140, 150, 160, 170, 180, 190}

  /** The ability card discarded, with its explicit discriminant. */
  datatype DiscardAbility =
    | Jump | Flap | Bomb | Freeze | Dash | Stomp | Telefrag | Kickback | Stun | Consumable
    | ShieldBash | Rocket | Resurrect | PoisonBoost | ZipLine | Mine | Rapture | Miracle
    | Backfire | Fireball
  {
    function Code(): int
    {
      match this
      case Jump => 10
      case Flap => 15
      case Bomb => 20
      case Freeze => 30
      case Dash => 40
      case Stomp => 50
      case Telefrag => 60
      case Kickback => 70
      case Stun => 80
      case Consumable => 90
      case ShieldBash => 100
      case Rocket => 110
      case Resurrect => 120
      case PoisonBoost => 130
      case ZipLine => 140
      case Mine => 150
      case Rapture => 160
      case Miracle => 170
      case Backfire => 180
      case Fireball => 190
    }

    /** `DiscardAbility::from_trigger_event`: the event code less 1000 must be
        one of the listed discriminants. */
    static function FromTriggerEvent(i: int): (r: Result<DiscardAbility>)
      ensures r.Ok? <==> i - 1000 in DiscardCodes
      ensures r.Ok? ==> r.value.Code() == i - 1000
    {
      match i - 1000
      case 10 => Ok(DiscardAbility.Jump)
      case 15 => Ok(Flap)
      case 20 => Ok(Bomb)
      case 30 => Ok(Freeze)
      case 40 => Ok(Dash)
      case 50 => Ok(Stomp)
      case 60 => Ok(Telefrag)
      case 70 => Ok(Kickback)
      case 80 => Ok(Stun)
      case 90 => Ok(Consumable)
      case 100 => Ok(ShieldBash)
      case 110 => Ok(DiscardAbility.Rocket)
      case 120 => Ok(Resurrect)
      case 130 => Ok(PoisonBoost)
      case 140 => Ok(ZipLine)
      case 150 => Ok(DiscardAbility.Mine)
      case 160 => Ok(Rapture)
      case 170 => Ok(Miracle)
      case 180 => Ok(Backfire)
      case 190 => Ok(Fireball)
      case _ => Err
    }
  }

  /** Every ability is found again from its discriminant plus 1000. */
  lemma DiscardAbilityRoundTrip(d: DiscardAbility)
    ensures d.Code() in DiscardCodes
    ensures DiscardAbility.FromTriggerEvent(d.Code() + 1000) == Ok(d)
  {
  }

  /** Every bullet type is found again from its ordinal plus 10. */
  lemma BulletTypeRoundTrip(b: BulletType)
    ensures BulletType.FromTriggerEvent(b.Ordinal() + 10) == Ok(b)
  {
  }

  /** The discrete gameplay event recorded on a tick. */
  datatype TriggerEvent =
    | None
    | Jump
    | Land
    | Bullet(bullet: BulletType)
    | Discard(ability: DiscardAbility)
    | BulletHit

  /** The resolved state of one tick: cumulative values and this tick's
      deltas, flags, event and bullet data. */
  datatype GhostFrame = GhostFrame(
    triggerEvent: TriggerEvent,
    playShotAnimation: bool,
    cumulativeTime: real,
    frameTime: real,
    pos: Vector3,
    posChange: Vector3,
    facingAngle: real,
    facingAngleChange: real,
    cameraPitch: real,
    cameraPitchChange: real,
    grounded: bool,
    stomping: bool,
    ziplining: bool,
    bulletId: int,
    bulletHitPos: Vector3,
    index: int)

  /** `GhostFrame::new`. */
  function NewFrame(): (f: GhostFrame)
    ensures f.index == -1 && f.triggerEvent == TriggerEvent.None
    ensures f.cumulativeTime == 0.0 && f.frameTime == 0.0
    ensures f.pos == Origin && f.posChange == Origin && f.bulletHitPos == Origin
    ensures f.facingAngle == 0.0 && f.facingAngleChange == 0.0
    ensures f.cameraPitch == 0.0 && f.cameraPitchChange == 0.0
    ensures !f.grounded && !f.stomping && !f.ziplining && !f.playShotAnimation
    ensures f.bulletId == 0
  {
    GhostFrame(TriggerEvent.None, false, 0.0, 0.0, Origin, Origin, 0.0, 0.0, 0.0, 0.0,
               false, false, false, 0, Origin, -1)
  }

  /** The cumulative fields of each frame are those of the frame before it
      (zero before the first) plus the frame's own deltas. */
  ghost predicate PrefixSums(frames: seq<GhostFrame>)
  {
    && (|frames| > 0 ==>
          && frames[0].cumulativeTime == frames[0].frameTime
          && frames[0].pos == Origin.Add(frames[0].posChange)
          && frames[0].facingAngle == frames[0].facingAngleChange
          && frames[0].cameraPitch == frames[0].cameraPitchChange)
    && forall k :: 0 < k < |frames| ==>
          && frames[k].cumulativeTime == frames[k - 1].cumulativeTime + frames[k].frameTime
          && frames[k].pos == frames[k - 1].pos.Add(frames[k].posChange)
          && frames[k].facingAngle == frames[k - 1].facingAngle + frames[k].facingAngleChange
          && frames[k].cameraPitch == frames[k - 1].cameraPitch + frames[k].cameraPitchChange
  }

  /** A snapshot of a `Ghost`'s fields, so that functions can speak of it. */
  datatype GhostState = GhostState(
    levelName: string,
    forcedGhostId: int,
    totalTime: real,
    ghostFrames: seq<GhostFrame>)

  /** The replay aggregate: header metadata and the frames decoded so far. */
  class Ghost {
    var levelName: string
    var forcedGhostId: int
    var totalTime: real
    var ghostFrames: seq<GhostFrame>

    /** `Ghost::new`. */
    constructor ()
      ensures ghostFrames == [] && levelName == ""
      ensures totalTime == -1.0 && forcedGhostId == -1
    {
      ghostFrames := [];
      levelName := "";
      totalTime := -1.0;
      forcedGhostId := -1;
    }

    function State(): GhostState
      reads this
    {
      GhostState(levelName, forcedGhostId, totalTime, ghostFrames)
    }
  }
}
