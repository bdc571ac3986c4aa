/** The decoder of the replay text (`src/ghost_parser.rs`): a header, a `$`,
    then `|`-separated frame tokens, each a run of single-letter labels
    followed by their values. */
module GhostParser {
  import opened Text
  import opened GhostTypes

  /** The `Err` values `parse` and `parse_frames` return. */
  datatype ParseError =
    | MissingFrameDelimiter
    | BadHeaderVersion
    | BadHeaderTick
    | UnknownHeaderField
    | SpuriousTriggerEvent(code: int)

  /** The `.unwrap()` that panics, named after the value it was decoding. */
  datatype PanicSite =
    | ForcedIdNotInteger
    | TotalTimeNotNumber
    | FrameTimeNotInteger
    | PositionTooManyValues
    | FacingAngleNotNumber
    | CameraPitchNotNumber
    | EventIdNotInteger
    | UnknownBulletType
    | UnknownDiscardAbility
    | BulletIdNotInteger
    | HitPositionTooManyValues

  /** A decode either returns an error or panics. */
  datatype Failure = Error(error: ParseError) | Panic(site: PanicSite)

  datatype Outcome<T> = Done(value: T) | Failed(failure: Failure)

  const HeaderVersion: string := "2"
  const HeaderTick: string := "0.03333"

  /** The frame labels, in the order the model applies them. */
  const Labels: seq<char> := ['a', 'b', 'c', 'd', 'e', 'f', 'g', 'h', 'i', 'j', 'k']

  // ---------------------------------------------------------------------------
  // Header

  /** The header values `parse` writes into the ghost. */
  datatype Header = Header(forcedGhostId: int, levelName: string, totalTime: real)

  /** The header values after the walk over the fields, and the failure that
      stopped it, if any. */
  datatype HeaderResult = HeaderResult(header: Header, failure: Option<Failure>)

  function HeaderOf(g: Ghost): Header
    reads g
  {
    Header(g.forcedGhostId, g.levelName, g.totalTime)
  }

  /** The effect of the header field at position `idx`. */
  function HeaderField(idx: nat, field: string, h: Header): Outcome<Header>
  {
    if idx == 0 then
      if field == HeaderVersion then Done(h) else Failed(Error(BadHeaderVersion))
    else if idx == 1 then
      match ParseI64(field)
      case Some(id) => Done(h.(forcedGhostId := id))
      case None => Failed(Panic(ForcedIdNotInteger))
    else if idx == 2 then
      Done(h.(levelName := field))
    else if idx == 3 then
      match ParseF64(field)
      case Some(t) => Done(h.(totalTime := t))
      case None => Failed(Panic(TotalTimeNotNumber))
    else if idx == 4 then
      if field == HeaderTick then Done(h) else Failed(Error(BadHeaderTick))
    else
      Failed(Error(UnknownHeaderField))
  }

  /** The walk over the `/`-separated header fields, from position `idx`,
      stopping at the first failure with the values written so far. */
  function DecodeHeader(fields: seq<string>, idx: nat, h: Header): HeaderResult
    decreases |fields|
  {
    if fields == [] then HeaderResult(h, Option.None)
    else
      match HeaderField(idx, fields[0], h)
      case Failed(f) => HeaderResult(h, Some(f))
      case Done(h') => DecodeHeader(fields[1..], idx + 1, h')
  }

  /** The fields before the fifth are acceptable. */
  predicate HeaderPrefixOk(fields: seq<string>)
    requires |fields| > 0
  {
    && fields[0] == HeaderVersion
    && (|fields| > 1 ==> ParseI64(fields[1]).Some?)
    && (|fields| > 3 ==> ParseF64(fields[3]).Some?)
  }

  /** A header `parse` accepts: at most five fields, the first `2`, the
      fifth `0.03333`, the numeric ones numbers. Fewer than five is fine. */
  predicate HeaderAccepted(fields: seq<string>)
    requires |fields| > 0
  {
    && HeaderPrefixOk(fields)
    && (|fields| > 4 ==> fields[4] == HeaderTick)
    && |fields| <= 5
  }

  lemma DecodeHeaderPastEnd(fields: seq<string>, idx: nat, h: Header)
    requires |fields| > 0 && idx >= 5
    ensures DecodeHeader(fields, idx, h) == HeaderResult(h, Some(Error(UnknownHeaderField)))
  {
  }

  /** What the header walk accepts, rejects and stores. */
  lemma {:induction false} HeaderDecoding(fields: seq<string>, h: Header)
    requires |fields| > 0
    ensures var r := DecodeHeader(fields, 0, h);
      && (r.failure.None? <==> HeaderAccepted(fields))
      && (fields[0] != HeaderVersion ==> r == HeaderResult(h, Some(Error(BadHeaderVersion))))
      && (HeaderPrefixOk(fields) && |fields| > 4 && fields[4] != HeaderTick ==>
            r.failure == Some(Error(BadHeaderTick)))
      && (HeaderPrefixOk(fields) && |fields| > 5 && fields[4] == HeaderTick ==>
            r.failure == Some(Error(UnknownHeaderField)))
      && (HeaderPrefixOk(fields) ==>
            && (|fields| > 1 ==> Some(r.header.forcedGhostId) == ParseI64(fields[1]))
            && (|fields| > 2 ==> r.header.levelName == fields[2])
            && (|fields| > 3 ==> Some(r.header.totalTime) == ParseF64(fields[3])))
      && (r.failure.None? ==>
            && (|fields| <= 1 ==> r.header.forcedGhostId == h.forcedGhostId)
            && (|fields| <= 2 ==> r.header.levelName == h.levelName)
            && (|fields| <= 3 ==> r.header.totalTime == h.totalTime))
  {
    var f := fields;
    if f[0] != HeaderVersion || |f| == 1 {
      return;
    }
    var t1 := f[1..];
    assert DecodeHeader(f, 0, h) == DecodeHeader(t1, 1, h);
    if ParseI64(f[1]).None? {
      return;
    }
    var h1 := h.(forcedGhostId := ParseI64(f[1]).value);
    assert DecodeHeader(t1, 1, h) == DecodeHeader(t1[1..], 2, h1);
    if |f| == 2 {
      return;
    }
    var t2 := t1[1..];
    var h2 := h1.(levelName := f[2]);
    assert DecodeHeader(t2, 2, h1) == DecodeHeader(t2[1..], 3, h2);
    if |f| == 3 {
      return;
    }
    var t3 := t2[1..];
    if ParseF64(f[3]).None? {
      return;
    }
    var h3 := h2.(totalTime := ParseF64(f[3]).value);
    assert DecodeHeader(t3, 3, h2) == DecodeHeader(t3[1..], 4, h3);
    if |f| == 4 {
      return;
    }
    var t4 := t3[1..];
    if f[4] != HeaderTick {
      return;
    }
    assert DecodeHeader(t4, 4, h3) == DecodeHeader(t4[1..], 5, h3);
    if |f| > 5 {
      DecodeHeaderPastEnd(t4[1..], 5, h3);
    }
  }

  // ---------------------------------------------------------------------------
  // Frame tokens

  /** The text of label `l` in a frame token: from just after the first `l`
      up to, not including, the next letter (or the end of the token). */
  function FieldValue(token: string, l: char): (v: string)
    requires l in token
    ensures var p := FirstIndex(token, l);
      && token[p] == l && l !in token[..p]
      && p + 1 + |v| <= |token|
      && token[p + 1..p + 1 + |v|] == v
      && (forall k :: 0 <= k < |v| ==> !IsAlphabetic(v[k]))
      && (p + 1 + |v| == |token| || IsAlphabetic(token[p + 1 + |v|]))
  {
    var rest := token[FirstIndex(token, l) + 1..];
    rest[..FirstAlphabetic(rest)]
  }

  /** The labelled fields of a frame token. */
  function FieldsOf(token: string): (fields: map<char, string>)
    ensures forall l :: l in fields <==> l in Labels && l in token
  {
    map l | l in Labels && l in token :: FieldValue(token, l)
  }

  /** The tokenizer of `parse_frames`: for each label in turn, if the token
      contains it, cut its value out of the token and record it. */
  method TokenizeFrame(token: string) returns (fields: map<char, string>)
    ensures fields == FieldsOf(token)
  {
    fields := map[];
    for j := 0 to |Labels|
      invariant forall l :: l in fields <==> l in Labels[..j] && l in token
      invariant forall l :: l in fields ==> l in token && fields[l] == FieldValue(token, l)
    {
      var fieldChar := Labels[j];
      assert Labels[..j + 1] == Labels[..j] + [fieldChar];
      if fieldChar in token {
        var start := FirstIndex(token, fieldChar);
        var untruncated := token[start + 1..];
        var truncation := FirstAlphabetic(untruncated);
        if truncation < |untruncated| {
          fields := fields[fieldChar := untruncated[..truncation]];
        } else {
          assert untruncated[..truncation] == untruncated;
          fields := fields[fieldChar := untruncated];
        }
      }
    }
    assert Labels[..|Labels|] == Labels;
    assert fields.Keys == FieldsOf(token).Keys;
  }

  /** The facing and pitch deltas: `-` stands for 0.0, anything else must be
      a number. */
  function AngleDelta(v: string): Option<real>
  {
    if v == "-" then Some(0.0) else ParseF64(v)
  }

  /** The event-code dispatch: 1, 3 and 2000 are single events, 10 to 20 a
      bullet and 1000 to 1190 a discard (whose sub-tables may still refuse the
      code), anything else an error. */
  function ClassifyEvent(code: int): (r: Outcome<TriggerEvent>)
    ensures r == Done(TriggerEvent.Jump) <==> code == 1
    ensures r == Done(TriggerEvent.Land) <==> code == 3
    ensures r == Done(BulletHit) <==> code == 2000
    ensures r.Done? ==> !r.value.None?
    ensures r.Done? && r.value.Bullet? <==> 10 <= code <= 14
    ensures r.Done? && r.value.Bullet? ==> r.value.bullet.Ordinal() == code - 10
    ensures r.Done? && r.value.Discard? <==> 1000 <= code <= 1190 && code - 1000 in DiscardCodes
    ensures r.Done? && r.value.Discard? ==> r.value.ability.Code() == code - 1000
    ensures r == Failed(Error(SpuriousTriggerEvent(code))) <==>
              !(code == 1 || code == 3 || code == 2000 || 10 <= code <= 20 || 1000 <= code <= 1190)
    ensures r == Failed(Panic(UnknownBulletType)) <==> 15 <= code <= 20
    ensures r == Failed(Panic(UnknownDiscardAbility)) <==>
              1000 <= code <= 1190 && code - 1000 !in DiscardCodes
  {
    if code == 1 then Done(TriggerEvent.Jump)
    else if code == 3 then Done(TriggerEvent.Land)
    else if 10 <= code <= 20 then
      match BulletType.FromTriggerEvent(code)
      case Ok(b) => Done(Bullet(b))
      case Err => Failed(Panic(UnknownBulletType))
    else if 1000 <= code <= 1190 then
      match DiscardAbility.FromTriggerEvent(code)
      case Ok(d) => Done(Discard(d))
      case Err => Failed(Panic(UnknownDiscardAbility))
    else if code == 2000 then Done(BulletHit)
    else Failed(Error(SpuriousTriggerEvent(code)))
  }

  /** The code an event is written with, after the comment in `src/ghost.rs`. */
  function EventCode(e: TriggerEvent): int
    requires !e.None?
  {
    match e
    case Jump => 1
    case Land => 3
    case Bullet(b) => 10 + b.Ordinal()
    case Discard(d) => 1000 + d.Code()
    case BulletHit => 2000
  }

  /** Classification and encoding are inverse: every event is recovered from
      its code, and every accepted code is the code of what it yields. */
  lemma EventCodeRoundTrip(e: TriggerEvent, code: int)
    requires !e.None?
    ensures ClassifyEvent(EventCode(e)) == Done(e)
    ensures ClassifyEvent(code).Done? ==> EventCode(ClassifyEvent(code).value) == code
  {
    match e {
      case Bullet(b) => BulletTypeRoundTrip(b);
      case Discard(d) => DiscardAbilityRoundTrip(d);
      case _ =>
    }
  }

  /** The `e` field: an integer code, then its classification. */
  function EventOf(v: string): Outcome<TriggerEvent>
  {
    match ParseI64(v)
    case None => Failed(Panic(EventIdNotInteger))
    case Some(code) => ClassifyEvent(code)
  }

  /** Writes the decoded value of fieldChar `l` into the frame, or fails. */
  function ApplyField(frame: GhostFrame, l: char, v: string): Outcome<GhostFrame>
    requires l in Labels
  {
    if l == 'a' then
      match ParseI64(v)
      case None => Failed(Panic(FrameTimeNotInteger))
      case Some(ticks) => Done(frame.(frameTime := ticks as real / 10000.0))
    else if l == 'b' then
      match ParseVector(v)
      case Err => Failed(Panic(PositionTooManyValues))
      case Ok(p) => Done(frame.(posChange := p))
    else if l == 'c' then
      match AngleDelta(v)
      case None => Failed(Panic(FacingAngleNotNumber))
      case Some(a) => Done(frame.(facingAngleChange := a))
    else if l == 'd' then
      match AngleDelta(v)
      case None => Failed(Panic(CameraPitchNotNumber))
      case Some(a) => Done(frame.(cameraPitchChange := a))
    else if l == 'e' then
      match EventOf(v)
      case Failed(f) => Failed(f)
      case Done(e) => Done(frame.(triggerEvent := e))
    else if l == 'f' then Done(frame.(playShotAnimation := true))
    else if l == 'g' then Done(frame.(grounded := true))
    else if l == 'h' then Done(frame.(ziplining := true))
    else if l == 'i' then Done(frame.(stomping := true))
    else if l == 'j' then
      match ParseI64(v)
      case None => Failed(Panic(BulletIdNotInteger))
      case Some(id) => Done(frame.(bulletId := id))
    else
      match ParseVector(v)
      case Err => Failed(Panic(HitPositionTooManyValues))
      case Ok(p) => Done(frame.(bulletHitPos := p))
  }

  /** Applies the fields present in the token for the labels from position
      `j` of `Labels` on, in order, stopping at the first failure. */
  function ApplyFields(frame: GhostFrame, fields: map<char, string>, j: nat): Outcome<GhostFrame>
    requires j <= |Labels|
    decreases |Labels| - j
  {
    if j == |Labels| then Done(frame)
    else if Labels[j] !in fields then ApplyFields(frame, fields, j + 1)
    else
      match ApplyField(frame, Labels[j], fields[Labels[j]])
      case Failed(f) => Failed(f)
      case Done(next) => ApplyFields(next, fields, j + 1)
  }

  /** A new frame with the given index, carrying the previous frame's
      cumulative time, position, facing angle and pitch. */
  function StartFrame(prev: Option<GhostFrame>, idx: int): GhostFrame
  {
    var f := NewFrame().(index := idx);
    match prev
    case None => f
    case Some(p) =>
      f.(cumulativeTime := p.cumulativeTime, pos := p.pos,
         facingAngle := p.facingAngle, cameraPitch := p.cameraPitch)
  }

  /** Adds the frame's own deltas to the carried cumulative values. */
  function Accumulate(f: GhostFrame): GhostFrame
  {
    f.(cumulativeTime := f.cumulativeTime + f.frameTime,
       pos := f.pos.Add(f.posChange),
       facingAngle := f.facingAngle + f.facingAngleChange,
       cameraPitch := f.cameraPitch + f.cameraPitchChange)
  }

  /** The decode of one frame token. */
  function DecodeToken(token: string, prev: Option<GhostFrame>, idx: int): Outcome<GhostFrame>
  {
    match ApplyFields(StartFrame(prev, idx), FieldsOf(token), 0)
    case Failed(f) => Failed(f)
    case Done(f) => Done(Accumulate(f))
  }

  /** The `match` on one label of `parse_frames`: decode the label's value
      and write it into the frame being built. */
  method ApplyLabel(before: GhostFrame, fieldChar: char, field: string) returns (o: Outcome<GhostFrame>)
    requires fieldChar in Labels
    ensures o == ApplyField(before, fieldChar, field)
  {
    var frame := before;
    if fieldChar == 'a' {
      var ticks := ParseI64(field);
      if ticks.None? {
        return Failed(Panic(FrameTimeNotInteger));
      }
      frame := frame.(frameTime := ticks.value as real / 10000.0);
    } else if fieldChar == 'b' {
      var change := Vector3FromString(field);
      if change.Err? {
        return Failed(Panic(PositionTooManyValues));
      }
      frame := frame.(posChange := change.value);
    } else if fieldChar == 'c' {
      if field == "-" {
        frame := frame.(facingAngleChange := 0.0);
      } else {
        var angle := ParseF64(field);
        if angle.None? {
          return Failed(Panic(FacingAngleNotNumber));
        }
        frame := frame.(facingAngleChange := angle.value);
      }
    } else if fieldChar == 'd' {
      if field == "-" {
        frame := frame.(cameraPitchChange := 0.0);
      } else {
        var pitch := ParseF64(field);
        if pitch.None? {
          return Failed(Panic(CameraPitchNotNumber));
        }
        frame := frame.(cameraPitchChange := pitch.value);
      }
    } else if fieldChar == 'e' {
      var eventId := ParseI64(field);
      if eventId.None? {
        return Failed(Panic(EventIdNotInteger));
      }
      var event := ClassifyEvent(eventId.value);
      if event.Failed? {
        return Failed(event.failure);
      }
      frame := frame.(triggerEvent := event.value);
    } else if fieldChar == 'f' {
      frame := frame.(playShotAnimation := true);
    } else if fieldChar == 'g' {
      frame := frame.(grounded := true);
    } else if fieldChar == 'h' {
      frame := frame.(ziplining := true);
    } else if fieldChar == 'i' {
      frame := frame.(stomping := true);
    } else if fieldChar == 'j' {
      var id := ParseI64(field);
      if id.None? {
        return Failed(Panic(BulletIdNotInteger));
      }
      frame := frame.(bulletId := id.value);
    } else {
      var hit := Vector3FromString(field);
      if hit.Err? {
        return Failed(Panic(HitPositionTooManyValues));
      }
      frame := frame.(bulletHitPos := hit.value);
    }
    o := Done(frame);
  }

  /** The loop of `parse_frames` over the labels found in a token, applying
      each in the order a to k. */
  method ApplyLabels(start: GhostFrame, fields: map<char, string>) returns (o: Outcome<GhostFrame>)
    ensures o == ApplyFields(start, fields, 0)
  {
    var frame := start;
    for j := 0 to |Labels|
      invariant ApplyFields(start, fields, 0) == ApplyFields(frame, fields, j)
    {
      var fieldChar := Labels[j];
      if fieldChar in fields {
        var applied := ApplyLabel(frame, fieldChar, fields[fieldChar]);
        if applied.Failed? {
          return applied;
        }
        frame := applied.value;
      }
    }
    o := Done(frame);
  }

  /** The set-up of a new frame in `parse_frames`: index it, and copy the
      previous frame's cumulative values over when there is one. */
  method SetUpFrame(prev: Option<GhostFrame>, idx: int) returns (frame: GhostFrame)
    ensures frame == StartFrame(prev, idx)
  {
    frame := NewFrame();
    frame := frame.(index := idx);
    if prev.Some? {
      frame := frame.(cumulativeTime := prev.value.cumulativeTime, pos := prev.value.pos,
                      facingAngle := prev.value.facingAngle, cameraPitch := prev.value.cameraPitch);
    }
  }

  /** The closing step of `parse_frames` for one frame: add the frame's
      deltas to the cumulative time, position, facing angle and pitch. */
  method AddDeltas(before: GhostFrame) returns (frame: GhostFrame)
    ensures frame == Accumulate(before)
  {
    frame := before;
    frame := frame.(cumulativeTime := frame.cumulativeTime + frame.frameTime);
    frame := frame.(pos := frame.pos.Add(frame.posChange));
    frame := frame.(facingAngle := frame.facingAngle + frame.facingAngleChange);
    frame := frame.(cameraPitch := frame.cameraPitch + frame.cameraPitchChange);
  }

  /** The decode of a token, from the outcome of its label walk. */
  lemma DecodeTokenSteps(token: string, prev: Option<GhostFrame>, idx: int, applied: Outcome<GhostFrame>)
    requires applied == ApplyFields(StartFrame(prev, idx), FieldsOf(token), 0)
    ensures DecodeToken(token, prev, idx) ==
      if applied.Failed? then Failed(applied.failure) else Done(Accumulate(applied.value))
  {
  }

  /** One iteration of `parse_frames`' loop: set up the frame, tokenize, apply
      each present label's value, accumulate, then push the frame onto the
      ghost. A failing token pushes nothing. */
  method ParseFrame(g: Ghost, token: string, prev: Option<GhostFrame>, idx: int) returns (o: Outcome<GhostFrame>)
    modifies g`ghostFrames
    ensures o == DecodeToken(token, prev, idx)
    ensures g.ghostFrames == old(g.ghostFrames) + (if o.Done? then [o.value] else [])
  {
    var frame := SetUpFrame(prev, idx);
    var fields := TokenizeFrame(token);
    var applied := ApplyLabels(frame, fields);
    DecodeTokenSteps(token, prev, idx, applied);
    if applied.Failed? {
      return Failed(applied.failure);
    }
    frame := AddDeltas(applied.value);
    g.ghostFrames := g.ghostFrames + [frame];
    o := Done(frame);
  }

  // ---------------------------------------------------------------------------
  // What one frame token decodes to

  /** Whether the value of label `l` is one `parse_frames` accepts: an
      integer for the frame time and the bullet id, at most three
      comma-separated values for the two positions, `-` or a number for the
      two angle deltas, an integer the event table knows for the event.
      The four flags accept anything. */
  predicate FieldAccepted(l: char, v: string)
  {
    if l == 'a' || l == 'j' then ParseI64(v).Some?
    else if l == 'b' || l == 'k' then Count(v, ',') <= 2
    else if l == 'c' || l == 'd' then v == "-" || ParseF64(v).Some?
    else if l == 'e' then EventOf(v).Done?
    else true
  }

  /** The frame after the label walk from position `j`, field by field: a
      field is set from its label's value when the label is present, comes
      at or after position `j`, and its value decodes; otherwise it keeps
      its value. */
  function Written(frame: GhostFrame, fields: map<char, string>, j: nat): GhostFrame
  {
    frame.(
      frameTime :=
        if (j <= 0 && 'a' in fields) && ParseI64(fields['a']).Some?
        then ParseI64(fields['a']).value as real / 10000.0 else frame.frameTime,
      posChange :=
        if (j <= 1 && 'b' in fields) && ParseVector(fields['b']).Ok?
        then ParseVector(fields['b']).value else frame.posChange,
      facingAngleChange :=
        if (j <= 2 && 'c' in fields) && AngleDelta(fields['c']).Some?
        then AngleDelta(fields['c']).value else frame.facingAngleChange,
      cameraPitchChange :=
        if (j <= 3 && 'd' in fields) && AngleDelta(fields['d']).Some?
        then AngleDelta(fields['d']).value else frame.cameraPitchChange,
      triggerEvent :=
        if (j <= 4 && 'e' in fields) && EventOf(fields['e']).Done?
        then EventOf(fields['e']).value else frame.triggerEvent,
      playShotAnimation := (j <= 5 && 'f' in fields) || frame.playShotAnimation,
      grounded := (j <= 6 && 'g' in fields) || frame.grounded,
      ziplining := (j <= 7 && 'h' in fields) || frame.ziplining,
      stomping := (j <= 8 && 'i' in fields) || frame.stomping,
      bulletId :=
        if (j <= 9 && 'j' in fields) && ParseI64(fields['j']).Some?
        then ParseI64(fields['j']).value else frame.bulletId,
      bulletHitPos :=
        if (j <= 10 && 'k' in fields) && ParseVector(fields['k']).Ok?
        then ParseVector(fields['k']).value else frame.bulletHitPos)
  }

  /** The failure `parse_frames` reports when it refuses the value of label
      `l`. */
  function FieldFailure(l: char, v: string): Failure
  {
    if l == 'a' then Panic(FrameTimeNotInteger)
    else if l == 'b' then Panic(PositionTooManyValues)
    else if l == 'c' then Panic(FacingAngleNotNumber)
    else if l == 'd' then Panic(CameraPitchNotNumber)
    else if l == 'e' then
      match ParseI64(v)
      case None => Panic(EventIdNotInteger)
      case Some(code) =>
        if 10 <= code <= 20 then Panic(UnknownBulletType)
        else if 1000 <= code <= 1190 then Panic(UnknownDiscardAbility)
        else Error(SpuriousTriggerEvent(code))
    else if l == 'j' then Panic(BulletIdNotInteger)
    else Panic(HitPositionTooManyValues)
  }

  /** The position of the first label from `j` on that is present and
      refused, or `|Labels|` when there is none. */
  function FirstRefused(fields: map<char, string>, j: nat): (i: nat)
    requires j <= |Labels|
    ensures j <= i <= |Labels|
    ensures i < |Labels| ==> Labels[i] in fields && !FieldAccepted(Labels[i], fields[Labels[i]])
    ensures forall k :: j <= k < i && Labels[k] in fields ==> FieldAccepted(Labels[k], fields[Labels[k]])
    decreases |Labels| - j
  {
    if j == |Labels| then j
    else if Labels[j] in fields && !FieldAccepted(Labels[j], fields[Labels[j]]) then j
    else FirstRefused(fields, j + 1)
  }

  /** What the label walk from position `j` yields: the failure of the first
      refused label, or else the frame with every pending label written. */
  function WalkResult(frame: GhostFrame, fields: map<char, string>, j: nat): Outcome<GhostFrame>
    requires j <= |Labels|
  {
    var i := FirstRefused(fields, j);
    if i < |Labels| then Failed(FieldFailure(Labels[i], fields[Labels[i]]))
    else Done(Written(frame, fields, j))
  }

  /** The walk from position `j` yields `WalkResult` on every frame. */
  ghost predicate WalkFrom(fields: map<char, string>, j: nat)
    requires j <= |Labels|
  {
    forall f: GhostFrame :: ApplyFields(f, fields, j) == WalkResult(f, fields, j)
  }

  /** Past the last label the walk yields its frame unchanged. */
  lemma WalkEnd(fields: map<char, string>)
    ensures WalkFrom(fields, |Labels|)
  {
  }

  // One step of the walk per label: if the walk from the next position
  // yields `WalkResult`, so does the walk from this one. The steps are
  // eleven lemmas rather than one over `j` so that each proof unfolds a
  // single label and stays within the solver's budget.

  lemma WalkStepA(fields: map<char, string>)
    requires WalkFrom(fields, 1)
    ensures WalkFrom(fields, 0)
  {
    forall f: GhostFrame
      ensures ApplyFields(f, fields, 0) == WalkResult(f, fields, 0)
    {
      if 'a' in fields {
        var v := fields['a'];
        if FieldAccepted('a', v) {
          var next := ApplyField(f, 'a', v).value;
          assert ApplyFields(f, fields, 0) == ApplyFields(next, fields, 1);
          assert Written(next, fields, 1) == Written(f, fields, 0);
        }
      }
    }
  }

  lemma WalkStepB(fields: map<char, string>)
    requires WalkFrom(fields, 2)
    ensures WalkFrom(fields, 1)
  {
    forall f: GhostFrame
      ensures ApplyFields(f, fields, 1) == WalkResult(f, fields, 1)
    {
      if 'b' in fields {
        var v := fields['b'];
        ParseVectorSpec(v);
        if FieldAccepted('b', v) {
          var next := ApplyField(f, 'b', v).value;
          assert ApplyFields(f, fields, 1) == ApplyFields(next, fields, 2);
          assert Written(next, fields, 2) == Written(f, fields, 1);
        }
      }
    }
  }

  lemma WalkStepC(fields: map<char, string>)
    requires WalkFrom(fields, 3)
    ensures WalkFrom(fields, 2)
  {
    forall f: GhostFrame
      ensures ApplyFields(f, fields, 2) == WalkResult(f, fields, 2)
    {
      if 'c' in fields {
        var v := fields['c'];
        if FieldAccepted('c', v) {
          var next := ApplyField(f, 'c', v).value;
          assert ApplyFields(f, fields, 2) == ApplyFields(next, fields, 3);
          assert Written(next, fields, 3) == Written(f, fields, 2);
        }
      }
    }
  }

  lemma WalkStepD(fields: map<char, string>)
    requires WalkFrom(fields, 4)
    ensures WalkFrom(fields, 3)
  {
    forall f: GhostFrame
      ensures ApplyFields(f, fields, 3) == WalkResult(f, fields, 3)
    {
      if 'd' in fields {
        var v := fields['d'];
        if FieldAccepted('d', v) {
          var next := ApplyField(f, 'd', v).value;
          assert ApplyFields(f, fields, 3) == ApplyFields(next, fields, 4);
          assert Written(next, fields, 4) == Written(f, fields, 3);
        }
      }
    }
  }

  lemma WalkStepE(fields: map<char, string>)
    requires WalkFrom(fields, 5)
    ensures WalkFrom(fields, 4)
  {
    forall f: GhostFrame
      ensures ApplyFields(f, fields, 4) == WalkResult(f, fields, 4)
    {
      if 'e' in fields {
        var v := fields['e'];
        if FieldAccepted('e', v) {
          var next := ApplyField(f, 'e', v).value;
          assert ApplyFields(f, fields, 4) == ApplyFields(next, fields, 5);
          assert Written(next, fields, 5) == Written(f, fields, 4);
        }
      }
    }
  }

  lemma WalkStepF(fields: map<char, string>)
    requires WalkFrom(fields, 6)
    ensures WalkFrom(fields, 5)
  {
    forall f: GhostFrame
      ensures ApplyFields(f, fields, 5) == WalkResult(f, fields, 5)
    {
      if 'f' in fields {
        var v := fields['f'];
        if FieldAccepted('f', v) {
          var next := ApplyField(f, 'f', v).value;
          assert ApplyFields(f, fields, 5) == ApplyFields(next, fields, 6);
          assert Written(next, fields, 6) == Written(f, fields, 5);
        }
      }
    }
  }

  lemma WalkStepG(fields: map<char, string>)
    requires WalkFrom(fields, 7)
    ensures WalkFrom(fields, 6)
  {
    forall f: GhostFrame
      ensures ApplyFields(f, fields, 6) == WalkResult(f, fields, 6)
    {
      if 'g' in fields {
        var v := fields['g'];
        if FieldAccepted('g', v) {
          var next := ApplyField(f, 'g', v).value;
          assert ApplyFields(f, fields, 6) == ApplyFields(next, fields, 7);
          assert Written(next, fields, 7) == Written(f, fields, 6);
        }
      }
    }
  }

  lemma WalkStepH(fields: map<char, string>)
    requires WalkFrom(fields, 8)
    ensures WalkFrom(fields, 7)
  {
    forall f: GhostFrame
      ensures ApplyFields(f, fields, 7) == WalkResult(f, fields, 7)
    {
      if 'h' in fields {
        var v := fields['h'];
        if FieldAccepted('h', v) {
          var next := ApplyField(f, 'h', v).value;
          assert ApplyFields(f, fields, 7) == ApplyFields(next, fields, 8);
          assert Written(next, fields, 8) == Written(f, fields, 7);
        }
      }
    }
  }

  lemma WalkStepI(fields: map<char, string>)
    requires WalkFrom(fields, 9)
    ensures WalkFrom(fields, 8)
  {
    forall f: GhostFrame
      ensures ApplyFields(f, fields, 8) == WalkResult(f, fields, 8)
    {
      if 'i' in fields {
        var v := fields['i'];
        if FieldAccepted('i', v) {
          var next := ApplyField(f, 'i', v).value;
          assert ApplyFields(f, fields, 8) == ApplyFields(next, fields, 9);
          assert Written(next, fields, 9) == Written(f, fields, 8);
        }
      }
    }
  }

  lemma WalkStepJ(fields: map<char, string>)
    requires WalkFrom(fields, 10)
    ensures WalkFrom(fields, 9)
  {
    forall f: GhostFrame
      ensures ApplyFields(f, fields, 9) == WalkResult(f, fields, 9)
    {
      if 'j' in fields {
        var v := fields['j'];
        if FieldAccepted('j', v) {
          var next := ApplyField(f, 'j', v).value;
          assert ApplyFields(f, fields, 9) == ApplyFields(next, fields, 10);
          assert Written(next, fields, 10) == Written(f, fields, 9);
        }
      }
    }
  }

  lemma WalkStepK(fields: map<char, string>)
    requires WalkFrom(fields, 11)
    ensures WalkFrom(fields, 10)
  {
    forall f: GhostFrame
      ensures ApplyFields(f, fields, 10) == WalkResult(f, fields, 10)
    {
      if 'k' in fields {
        var v := fields['k'];
        ParseVectorSpec(v);
        if FieldAccepted('k', v) {
          var next := ApplyField(f, 'k', v).value;
          assert ApplyFields(f, fields, 10) == ApplyFields(next, fields, 11);
          assert Written(next, fields, 11) == Written(f, fields, 10);
        }
      }
    }
  }

  /** The label walk over a token's fields is `WalkResult`: it fails exactly
      at the first refused label, with that label's failure, and otherwise
      writes each present label's value into its own field. */
  lemma ApplyFieldsWalk(frame: GhostFrame, fields: map<char, string>)
    ensures ApplyFields(frame, fields, 0) == WalkResult(frame, fields, 0)
  {
    WalkEnd(fields);
    WalkStepK(fields);
    WalkStepJ(fields);
    WalkStepI(fields);
    WalkStepH(fields);
    WalkStepG(fields);
    WalkStepF(fields);
    WalkStepE(fields);
    WalkStepD(fields);
    WalkStepC(fields);
    WalkStepB(fields);
    WalkStepA(fields);
  }

  /** Every label the token contains carries a value its decoder accepts. */
  predicate TokenAccepted(token: string)
  {
    forall l :: l in Labels && l in token ==> FieldAccepted(l, FieldValue(token, l))
  }

  /** A frame token decodes exactly when it is accepted. When it is not, the
      failure is the one of the first label, in the order `a` to `k`, whose
      value is refused. */
  lemma DecodeTokenOutcome(token: string, prev: Option<GhostFrame>, idx: int)
    ensures DecodeToken(token, prev, idx).Done? <==> TokenAccepted(token)
    ensures DecodeToken(token, prev, idx).Failed? ==>
              exists i :: 0 <= i < |Labels| && Labels[i] in token
                && !FieldAccepted(Labels[i], FieldValue(token, Labels[i]))
                && (forall k :: 0 <= k < i && Labels[k] in token ==>
                      FieldAccepted(Labels[k], FieldValue(token, Labels[k])))
                && DecodeToken(token, prev, idx).failure == FieldFailure(Labels[i], FieldValue(token, Labels[i]))
  {
    var fields := FieldsOf(token);
    ApplyFieldsWalk(StartFrame(prev, idx), fields);
    var i := FirstRefused(fields, 0);
    if i == |Labels| {
      forall l | l in Labels && l in token
        ensures FieldAccepted(l, FieldValue(token, l))
      {
        var k :| 0 <= k < |Labels| && Labels[k] == l;
      }
    }
  }

  /** The failure of a frame token: the refusal of its first refused label,
      in the order `a` to `k`, or `None` when it has none. */
  function TokenFailure(token: string): Option<Failure>
  {
    var i := FirstRefused(FieldsOf(token), 0);
    if i < |Labels| then Some(FieldFailure(Labels[i], FieldValue(token, Labels[i]))) else Option.None
  }

  /** Whatever frame comes before it, a token fails exactly with its
      `TokenFailure`. */
  lemma DecodeTokenFailure(token: string, prev: Option<GhostFrame>, idx: int)
    ensures DecodeToken(token, prev, idx).Done? <==> TokenFailure(token).None?
    ensures DecodeToken(token, prev, idx).Failed? ==>
              TokenFailure(token) == Some(DecodeToken(token, prev, idx).failure)
  {
    ApplyFieldsWalk(StartFrame(prev, idx), FieldsOf(token));
  }

  /** An accepted token decodes to its start frame with every label it
      contains written, plus the accumulated deltas. */
  lemma DecodeTokenWritten(token: string, prev: Option<GhostFrame>, idx: int)
    requires TokenAccepted(token)
    ensures DecodeToken(token, prev, idx) == Done(Accumulate(Written(StartFrame(prev, idx), FieldsOf(token), 0)))
  {
    DecodeTokenOutcome(token, prev, idx);
    ApplyFieldsWalk(StartFrame(prev, idx), FieldsOf(token));
  }

  /** An accepted value decodes: an integer, a vector, an angle delta or
      an event, as its label asks. */
  lemma AcceptedDecodes(l: char, v: string)
    requires FieldAccepted(l, v)
    ensures l == 'a' || l == 'j' ==> ParseI64(v).Some?
    ensures l == 'b' || l == 'k' ==> ParseVector(v).Ok?
    ensures l == 'c' || l == 'd' ==> AngleDelta(v).Some?
    ensures l == 'e' ==> EventOf(v).Done?
  {
    if l == 'b' || l == 'k' {
      ParseVectorSpec(v);
    }
  }

  /** The fields of a start frame after writing every label of an accepted
      token. */
  lemma WrittenFields(token: string, start: GhostFrame, f: GhostFrame)
    requires TokenAccepted(token)
    requires f == Written(start, FieldsOf(token), 0)
    ensures f.playShotAnimation <==> 'f' in token || start.playShotAnimation
    ensures f.grounded <==> 'g' in token || start.grounded
    ensures f.ziplining <==> 'h' in token || start.ziplining
    ensures f.stomping <==> 'i' in token || start.stomping
    ensures 'a' in token ==> ParseI64(FieldValue(token, 'a')).Some?
    ensures 'a' in token ==> f.frameTime == ParseI64(FieldValue(token, 'a')).value as real / 10000.0
    ensures 'a' !in token ==> f.frameTime == start.frameTime
    ensures 'b' in token ==> ParseVector(FieldValue(token, 'b')).Ok?
    ensures 'b' in token ==> f.posChange == ParseVector(FieldValue(token, 'b')).value
    ensures 'b' !in token ==> f.posChange == start.posChange
    ensures 'c' in token ==> AngleDelta(FieldValue(token, 'c')).Some?
    ensures 'c' in token ==> f.facingAngleChange == AngleDelta(FieldValue(token, 'c')).value
    ensures 'c' !in token ==> f.facingAngleChange == start.facingAngleChange
    ensures 'd' in token ==> AngleDelta(FieldValue(token, 'd')).Some?
    ensures 'd' in token ==> f.cameraPitchChange == AngleDelta(FieldValue(token, 'd')).value
    ensures 'd' !in token ==> f.cameraPitchChange == start.cameraPitchChange
    ensures 'e' in token ==> EventOf(FieldValue(token, 'e')).Done?
    ensures 'e' in token ==> f.triggerEvent == EventOf(FieldValue(token, 'e')).value
    ensures 'e' !in token ==> f.triggerEvent == start.triggerEvent
    ensures 'j' in token ==> ParseI64(FieldValue(token, 'j')).Some?
    ensures 'j' in token ==> f.bulletId == ParseI64(FieldValue(token, 'j')).value
    ensures 'j' !in token ==> f.bulletId == start.bulletId
    ensures 'k' in token ==> ParseVector(FieldValue(token, 'k')).Ok?
    ensures 'k' in token ==> f.bulletHitPos == ParseVector(FieldValue(token, 'k')).value
    ensures 'k' !in token ==> f.bulletHitPos == start.bulletHitPos
    ensures f.index == start.index && f.cumulativeTime == start.cumulativeTime && f.pos == start.pos
    ensures f.facingAngle == start.facingAngle && f.cameraPitch == start.cameraPitch
  {
    if 'a' in token {
      AcceptedDecodes('a', FieldValue(token, 'a'));
    }
    if 'b' in token {
      AcceptedDecodes('b', FieldValue(token, 'b'));
    }
    if 'c' in token {
      AcceptedDecodes('c', FieldValue(token, 'c'));
    }
    if 'd' in token {
      AcceptedDecodes('d', FieldValue(token, 'd'));
    }
    if 'e' in token {
      AcceptedDecodes('e', FieldValue(token, 'e'));
    }
    if 'j' in token {
      AcceptedDecodes('j', FieldValue(token, 'j'));
    }
    if 'k' in token {
      AcceptedDecodes('k', FieldValue(token, 'k'));
    }
  }

  /** The frame a token decodes to: the given index; each flag set exactly
      when its label occurs; each delta, the event and the bullet data read
      from their label's value, which then decodes, or left at the new
      frame's default when the label is absent. */
  lemma DecodeTokenFields(token: string, prev: Option<GhostFrame>, idx: int, f: GhostFrame)
    requires DecodeToken(token, prev, idx) == Done(f)
    ensures f.index == idx
    ensures f.playShotAnimation <==> 'f' in token
    ensures f.grounded <==> 'g' in token
    ensures f.ziplining <==> 'h' in token
    ensures f.stomping <==> 'i' in token
    ensures 'a' in token ==> ParseI64(FieldValue(token, 'a')).Some?
    ensures 'a' in token ==> f.frameTime == ParseI64(FieldValue(token, 'a')).value as real / 10000.0
    ensures 'a' !in token ==> f.frameTime == 0.0
    ensures 'b' in token ==> ParseVector(FieldValue(token, 'b')).Ok?
    ensures 'b' in token ==> f.posChange == ParseVector(FieldValue(token, 'b')).value
    ensures 'b' !in token ==> f.posChange == Origin
    ensures 'c' in token ==> AngleDelta(FieldValue(token, 'c')).Some?
    ensures 'c' in token ==> f.facingAngleChange == AngleDelta(FieldValue(token, 'c')).value
    ensures 'c' !in token ==> f.facingAngleChange == 0.0
    ensures 'd' in token ==> AngleDelta(FieldValue(token, 'd')).Some?
    ensures 'd' in token ==> f.cameraPitchChange == AngleDelta(FieldValue(token, 'd')).value
    ensures 'd' !in token ==> f.cameraPitchChange == 0.0
    ensures 'e' in token ==> EventOf(FieldValue(token, 'e')).Done?
    ensures 'e' in token ==> f.triggerEvent == EventOf(FieldValue(token, 'e')).value
    ensures 'e' !in token ==> f.triggerEvent == TriggerEvent.None
    ensures 'j' in token ==> ParseI64(FieldValue(token, 'j')).Some?
    ensures 'j' in token ==> f.bulletId == ParseI64(FieldValue(token, 'j')).value
    ensures 'j' !in token ==> f.bulletId == 0
    ensures 'k' in token ==> ParseVector(FieldValue(token, 'k')).Ok?
    ensures 'k' in token ==> f.bulletHitPos == ParseVector(FieldValue(token, 'k')).value
    ensures 'k' !in token ==> f.bulletHitPos == Origin
  {
    DecodeTokenOutcome(token, prev, idx);
    DecodeTokenWritten(token, prev, idx);
    var w := Written(StartFrame(prev, idx), FieldsOf(token), 0);
    WrittenFields(token, StartFrame(prev, idx), w);
  }

  /** The cumulative values of a decoded frame are those carried over from
      the previous frame (zero before the first) plus the frame's deltas. */
  lemma DecodeTokenCumulative(token: string, prev: Option<GhostFrame>, idx: int, f: GhostFrame)
    requires DecodeToken(token, prev, idx) == Done(f)
    ensures f.cumulativeTime == (if prev.Some? then prev.value.cumulativeTime else 0.0) + f.frameTime
    ensures f.pos == (if prev.Some? then prev.value.pos else Origin).Add(f.posChange)
    ensures f.facingAngle == (if prev.Some? then prev.value.facingAngle else 0.0) + f.facingAngleChange
    ensures f.cameraPitch == (if prev.Some? then prev.value.cameraPitch else 0.0) + f.cameraPitchChange
  {
    DecodeTokenOutcome(token, prev, idx);
    DecodeTokenWritten(token, prev, idx);
    var w := Written(StartFrame(prev, idx), FieldsOf(token), 0);
    WrittenFields(token, StartFrame(prev, idx), w);
  }

  // ---------------------------------------------------------------------------
  // The frame list and the whole replay

  /** The frames decoded from a token list, and the failure that stopped the
      walk, if any. */
  datatype FramesResult = FramesResult(frames: seq<GhostFrame>, failure: Option<Failure>)

  function AsOutcome(failure: Option<Failure>): Outcome<()>
  {
    match failure
    case None => Done(())
    case Some(f) => Failed(f)
  }

  /** A token decoder: the token, the frame before it and its position in,
      the frame it decodes to out. */
  type Decoder = (string, Option<GhostFrame>, int) -> Outcome<GhostFrame>

  /** The walk of `parse_frames` over the tokens from position `idx`, each
      frame decoded after the one before it, stopping at the first failure. */
  function Walk(decode: Decoder, tokens: seq<string>, prev: Option<GhostFrame>, idx: int): FramesResult
    decreases |tokens|
  {
    if tokens == [] then FramesResult([], Option.None)
    else
      match decode(tokens[0], prev, idx)
      case Failed(f) => FramesResult([], Some(f))
      case Done(frame) =>
        var rest := Walk(decode, tokens[1..], Some(frame), idx + 1);
        FramesResult([frame] + rest.frames, rest.failure)
  }

  /** The frame walk of `parse_frames`, with its token decoder. */
  function DecodeFrames(tokens: seq<string>, prev: Option<GhostFrame>, idx: int): FramesResult
  {
    Walk(DecodeToken, tokens, prev, idx)
  }

  lemma AppendAssociative<T>(a: seq<T>, b: seq<T>, c: seq<T>)
    ensures a + (b + c) == a + b + c
  {
  }

  /** The frames pushed so far in front of what the rest of the walk yields. */
  function Prepend(pushed: seq<GhostFrame>, rest: FramesResult): FramesResult
  {
    FramesResult(pushed + rest.frames, rest.failure)
  }

  /** One step of the walk: decoding the token at `idx` either ends the walk
      with its failure, or pushes its frame and moves on. */
  lemma DecodeFramesStep(tokens: seq<string>, idx: nat, prev: Option<GhostFrame>,
                         pushed: seq<GhostFrame>, o: Outcome<GhostFrame>)
    requires idx < |tokens| && o == DecodeToken(tokens[idx], prev, idx)
    ensures o.Failed? ==>
      Prepend(pushed, DecodeFrames(tokens[idx..], prev, idx)) == FramesResult(pushed, Some(o.failure))
    ensures o.Done? ==>
      Prepend(pushed, DecodeFrames(tokens[idx..], prev, idx)) ==
      Prepend(pushed + [o.value], DecodeFrames(tokens[idx + 1..], Some(o.value), idx + 1))
  {
    assert tokens[idx..][1..] == tokens[idx + 1..];
    if o.Done? {
      AppendAssociative(pushed, [o.value], DecodeFrames(tokens[idx + 1..], Some(o.value), idx + 1).frames);
    } else {
      assert pushed + [] == pushed;
    }
  }

  /** The frame before position `k` of a walk that started after `prev`. */
  function Before(prev: Option<GhostFrame>, frames: seq<GhostFrame>, k: nat): Option<GhostFrame>
    requires k <= |frames|
  {
    if k == 0 then prev else Some(frames[k - 1])
  }

  /** The walk decodes a prefix of the tokens, all of them exactly when it
      reports no failure. */
  lemma {:induction false} WalkLength(decode: Decoder, tokens: seq<string>, prev: Option<GhostFrame>, idx: int)
    ensures |Walk(decode, tokens, prev, idx).frames| <= |tokens|
    ensures Walk(decode, tokens, prev, idx).failure.None? <==> |Walk(decode, tokens, prev, idx).frames| == |tokens|
    decreases |tokens|
  {
    if tokens != [] {
      var o := decode(tokens[0], prev, idx);
      if o.Done? {
        WalkLength(decode, tokens[1..], Some(o.value), idx + 1);
      }
    }
  }

  /** Frame `k` of the walk is the decode of token `k` after frame `k - 1`
      (after `prev` for the first). */
  lemma {:induction false} WalkDecoded(decode: Decoder, tokens: seq<string>, prev: Option<GhostFrame>, idx: int, k: nat)
    requires k < |Walk(decode, tokens, prev, idx).frames|
    ensures k < |tokens|
    ensures var frames := Walk(decode, tokens, prev, idx).frames;
      decode(tokens[k], Before(prev, frames, k), idx + k) == Done(frames[k])
    decreases |tokens|
  {
    var o := decode(tokens[0], prev, idx);
    var rest := Walk(decode, tokens[1..], Some(o.value), idx + 1);
    var frames := Walk(decode, tokens, prev, idx).frames;
    assert frames == [o.value] + rest.frames;
    if k > 0 {
      WalkDecoded(decode, tokens[1..], Some(o.value), idx + 1, k - 1);
      assert tokens[k] == tokens[1..][k - 1] && frames[k] == rest.frames[k - 1];
      assert Before(prev, frames, k) == Before(Some(o.value), rest.frames, k - 1);
      assert idx + k == idx + 1 + (k - 1);
    }
  }

  /** A walk that fails stops at the token after its last frame, with that
      token's failure. */
  lemma {:induction false} WalkFailure(decode: Decoder, tokens: seq<string>, prev: Option<GhostFrame>, idx: int)
    requires Walk(decode, tokens, prev, idx).failure.Some?
    ensures var r := Walk(decode, tokens, prev, idx);
      |r.frames| < |tokens|
      && decode(tokens[|r.frames|], Before(prev, r.frames, |r.frames|), idx + |r.frames|)
           == Failed(r.failure.value)
    decreases |tokens|
  {
    var o := decode(tokens[0], prev, idx);
    if o.Done? {
      var rest := Walk(decode, tokens[1..], Some(o.value), idx + 1);
      WalkFailure(decode, tokens[1..], Some(o.value), idx + 1);
      var frames := [o.value] + rest.frames;
      assert Walk(decode, tokens, prev, idx) == FramesResult(frames, rest.failure);
      var n := |rest.frames|;
      assert tokens[n + 1] == tokens[1..][n];
      assert Before(prev, frames, n + 1) == Before(Some(o.value), rest.frames, n);
      assert idx + (n + 1) == idx + 1 + n;
    }
  }

  /** A walk whose decoder fails on a token only as `fail` says stops, when
      it fails, at a token `fail` refuses, with that failure. */
  lemma WalkFailureBy(decode: Decoder, fail: string -> Option<Failure>, tokens: seq<string>,
                      prev: Option<GhostFrame>, idx: int)
    requires forall t, p, i :: decode(t, p, i).Failed? ==> fail(t) == Some(decode(t, p, i).failure)
    ensures var r := Walk(decode, tokens, prev, idx);
      r.failure.Some? ==> |r.frames| < |tokens| && fail(tokens[|r.frames|]) == r.failure
  {
    if Walk(decode, tokens, prev, idx).failure.Some? {
      WalkFailure(decode, tokens, prev, idx);
    }
  }

  /** A decoded frame carries the index it was decoded at. */
  lemma DecodeTokenIndex(token: string, prev: Option<GhostFrame>, idx: int)
    requires DecodeToken(token, prev, idx).Done?
    ensures DecodeToken(token, prev, idx).value.index == idx
  {
    DecodeTokenFields(token, prev, idx, DecodeToken(token, prev, idx).value);
  }

  /** A walk with a decoder that keeps the index it is given numbers its
      frames from `idx` on. */
  lemma WalkIndices(decode: Decoder, tokens: seq<string>, prev: Option<GhostFrame>, idx: int)
    requires forall t, p, i :: decode(t, p, i).Done? ==> decode(t, p, i).value.index == i
    ensures var r := Walk(decode, tokens, prev, idx);
      forall k :: 0 <= k < |r.frames| ==> r.frames[k].index == idx + k
  {
    var r := Walk(decode, tokens, prev, idx);
    forall k | 0 <= k < |r.frames|
      ensures r.frames[k].index == idx + k
    {
      WalkDecoded(decode, tokens, prev, idx, k);
    }
  }

  /** Frame `k` of a walk that starts at position `idx` has index `idx + k`. */
  lemma DecodeFramesIndices(tokens: seq<string>, prev: Option<GhostFrame>, idx: int)
    ensures var r := DecodeFrames(tokens, prev, idx);
      forall k :: 0 <= k < |r.frames| ==> r.frames[k].index == idx + k
  {
    forall t, p, i | DecodeToken(t, p, i).Done?
      ensures DecodeToken(t, p, i).value.index == i
    {
      DecodeTokenIndex(t, p, i);
    }
    WalkIndices(DecodeToken, tokens, prev, idx);
    assert DecodeFrames(tokens, prev, idx) == Walk(DecodeToken, tokens, prev, idx);
  }

  /** Frame `k` of a walk from the start adds its deltas to the cumulative
      values of frame `k - 1` (to zero for the first). */
  lemma DecodeFramesAccumulate(tokens: seq<string>, k: nat)
    requires k < |DecodeFrames(tokens, Option.None, 0).frames|
    ensures var frames := DecodeFrames(tokens, Option.None, 0).frames;
      var f := frames[k];
      && f.cumulativeTime == (if k == 0 then 0.0 else frames[k - 1].cumulativeTime) + f.frameTime
      && f.pos == (if k == 0 then Origin else frames[k - 1].pos).Add(f.posChange)
      && f.facingAngle == (if k == 0 then 0.0 else frames[k - 1].facingAngle) + f.facingAngleChange
      && f.cameraPitch == (if k == 0 then 0.0 else frames[k - 1].cameraPitch) + f.cameraPitchChange
  {
    var frames := DecodeFrames(tokens, Option.None, 0).frames;
    WalkDecoded(DecodeToken, tokens, Option.None, 0, k);
    DecodeTokenCumulative(tokens[k], Before(Option.None, frames, k), k, frames[k]);
  }

  /** A walk from the start keeps running totals: every frame's cumulative
      values are the previous frame's plus its own deltas. */
  lemma DecodeFramesPrefixSums(tokens: seq<string>)
    ensures PrefixSums(DecodeFrames(tokens, Option.None, 0).frames)
  {
    var frames := DecodeFrames(tokens, Option.None, 0).frames;
    if |frames| > 0 {
      DecodeFramesAccumulate(tokens, 0);
    }
    forall k | 0 < k < |frames|
      ensures && frames[k].cumulativeTime == frames[k - 1].cumulativeTime + frames[k].frameTime
              && frames[k].pos == frames[k - 1].pos.Add(frames[k].posChange)
              && frames[k].facingAngle == frames[k - 1].facingAngle + frames[k].facingAngleChange
              && frames[k].cameraPitch == frames[k - 1].cameraPitch + frames[k].cameraPitchChange
    {
      DecodeFramesAccumulate(tokens, k);
    }
  }

  /** `parse_frames`: decode each token in turn and push its frame onto the
      ghost; the first failure ends the walk, the frames pushed before it
      stay. */
  method ParseFrames(g: Ghost, frames: seq<string>) returns (o: Outcome<()>)
    modifies g`ghostFrames
    ensures var r := DecodeFrames(frames, Option.None, 0);
      && g.ghostFrames == old(g.ghostFrames) + r.frames
      && o == AsOutcome(r.failure)
  {
    var prevFrame: Option<GhostFrame> := Option.None;
    ghost var pushed: seq<GhostFrame> := [];
    for idx := 0 to |frames|
      invariant g.ghostFrames == old(g.ghostFrames) + pushed
      invariant DecodeFrames(frames, Option.None, 0) == Prepend(pushed, DecodeFrames(frames[idx..], prevFrame, idx))
    {
      var decoded := ParseFrame(g, frames[idx], prevFrame, idx);
      DecodeFramesStep(frames, idx, prevFrame, pushed, decoded);
      if decoded.Failed? {
        return Failed(decoded.failure);
      }
      AppendAssociative(old(g.ghostFrames), pushed, [decoded.value]);
      pushed := pushed + [decoded.value];
      prevFrame := Some(decoded.value);
    }
    assert frames[|frames|..] == [];
    o := Done(());
  }

  /** The ghost after `parse`, and what `parse` returns. */
  datatype ParseResult = ParseResult(state: GhostState, outcome: Outcome<()>)

  function WithHeader(s: GhostState, h: Header): GhostState
  {
    s.(forcedGhostId := h.forcedGhostId, levelName := h.levelName, totalTime := h.totalTime)
  }

  /** The effect of `parse` on a ghost in state `s`: split the header off at
      the first `$`, walk its `/`-separated fields, then decode the
      `|`-separated frames after it. */
  function Decoded(buffer: string, s: GhostState): ParseResult
  {
    match SplitOnce(buffer, '$')
    case None => ParseResult(s, Failed(Error(MissingFrameDelimiter)))
    case Some(parts) =>
      var hr := DecodeHeader(Split(parts.0, '/'), 0, Header(s.forcedGhostId, s.levelName, s.totalTime));
      var s' := WithHeader(s, hr.header);
      if hr.failure.Some? then ParseResult(s', Failed(hr.failure.value))
      else
        var fr := DecodeFrames(Split(parts.1, '|'), Option.None, 0);
        ParseResult(s'.(ghostFrames := s.ghostFrames + fr.frames), AsOutcome(fr.failure))
  }

  /** `parse` never removes a frame: the ghost's frames before the call stay
      a prefix of its frames after it. Without a `$` nothing changes at all. */
  lemma DecodedKeepsFrames(buffer: string, s: GhostState)
    ensures var r := Decoded(buffer, s);
      |s.ghostFrames| <= |r.state.ghostFrames| && r.state.ghostFrames[..|s.ghostFrames|] == s.ghostFrames
    ensures '$' !in buffer ==> Decoded(buffer, s) == ParseResult(s, Failed(Error(MissingFrameDelimiter)))
  {
    var r := Decoded(buffer, s);
    if '$' in buffer {
      var fr := DecodeFrames(Split(SplitOnce(buffer, '$').value.1, '|'), Option.None, 0);
      assert (s.ghostFrames + fr.frames)[..|s.ghostFrames|] == s.ghostFrames;
    }
  }

  /** The header part of `parse`: a refused header fails the call and adds
      no frame; the id, name and time the header carries are stored. */
  lemma DecodedHeader(buffer: string, s: GhostState, head: string, tail: string)
    requires SplitOnce(buffer, '$') == Some((head, tail))
    ensures var r := Decoded(buffer, s);
      var fields := Split(head, '/');
      && (!HeaderAccepted(fields) ==> r.outcome.Failed? && r.state.ghostFrames == s.ghostFrames)
      && (HeaderPrefixOk(fields) ==>
            && (|fields| > 1 ==> Some(r.state.forcedGhostId) == ParseI64(fields[1]))
            && (|fields| > 2 ==> r.state.levelName == fields[2])
            && (|fields| > 3 ==> Some(r.state.totalTime) == ParseF64(fields[3])))
  {
    SplitCount(head, '/');
    HeaderDecoding(Split(head, '/'), Header(s.forcedGhostId, s.levelName, s.totalTime));
  }

  /** Once the header is accepted, `parse` appends the frame walk over the
      `|`-separated tokens and reports its failure. */
  lemma DecodedAppends(buffer: string, s: GhostState, head: string, tail: string)
    requires SplitOnce(buffer, '$') == Some((head, tail))
    requires HeaderAccepted(Split(head, '/'))
    ensures var fr := DecodeFrames(Split(tail, '|'), Option.None, 0);
      && Decoded(buffer, s).state.ghostFrames == s.ghostFrames + fr.frames
      && Decoded(buffer, s).outcome == AsOutcome(fr.failure)
  {
    HeaderDecoding(Split(head, '/'), Header(s.forcedGhostId, s.levelName, s.totalTime));
  }

  /** The walk of `parse_frames` over a whole frame list: it decodes all
      tokens exactly when it reports no failure, frame `k` has index `k`,
      the running totals start from zero, and a failure is that of the
      token after the last frame. */
  lemma DecodeFramesFromStart(tokens: seq<string>)
    ensures var r := DecodeFrames(tokens, Option.None, 0);
      && (r.failure.None? <==> |r.frames| == |tokens|)
      && (forall k :: 0 <= k < |r.frames| ==> r.frames[k].index == k)
      && PrefixSums(r.frames)
      && (r.failure.Some? ==> |r.frames| < |tokens| && TokenFailure(tokens[|r.frames|]) == r.failure)
  {
    WalkLength(DecodeToken, tokens, Option.None, 0);
    DecodeFramesIndices(tokens, Option.None, 0);
    DecodeFramesPrefixSums(tokens);
    forall t, p, i | DecodeToken(t, p, i).Failed?
      ensures TokenFailure(t) == Some(DecodeToken(t, p, i).failure)
    {
      DecodeTokenFailure(t, p, i);
    }
    WalkFailureBy(DecodeToken, TokenFailure, tokens, Option.None, 0);
    assert DecodeFrames(tokens, Option.None, 0) == Walk(DecodeToken, tokens, Option.None, 0);
  }

  /** The frame part of `parse`, once the header is accepted: the frames
      appended are the decodes of the `|`-separated tokens, in order, the
      `k`-th with index `k` and running totals from zero; the call succeeds
      exactly when every token decodes, and otherwise fails with the failure
      of the first token that does not. */
  lemma DecodedFrames(buffer: string, s: GhostState, head: string, tail: string, added: seq<GhostFrame>)
    requires SplitOnce(buffer, '$') == Some((head, tail))
    requires HeaderAccepted(Split(head, '/'))
    requires Decoded(buffer, s).state.ghostFrames == s.ghostFrames + added
    ensures var tokens := Split(tail, '|');
      && (Decoded(buffer, s).outcome.Done? <==> |added| == Count(tail, '|') + 1)
      && (forall k :: 0 <= k < |added| ==> added[k].index == k)
      && PrefixSums(added)
      && (Decoded(buffer, s).outcome.Failed? ==>
            |added| < |tokens| && TokenFailure(tokens[|added|]) == Some(Decoded(buffer, s).outcome.failure))
  {
    var tokens := Split(tail, '|');
    var fr := DecodeFrames(tokens, Option.None, 0);
    DecodedAppends(buffer, s, head, tail);
    assert added == fr.frames by {
      assert (s.ghostFrames + added)[|s.ghostFrames|..] == added;
      assert (s.ghostFrames + fr.frames)[|s.ghostFrames|..] == fr.frames;
    }
    SplitCount(tail, '|');
    DecodeFramesFromStart(tokens);
  }

  /** One arm of the header `match` in `parse`. */
  method ApplyHeaderField(g: Ghost, idx: nat, field: string) returns (o: Outcome<()>)
    modifies g
    ensures var r := HeaderField(idx, field, old(HeaderOf(g)));
      && (r.Done? ==> o == Done(()) && HeaderOf(g) == r.value)
      && (r.Failed? ==> o == Failed(r.failure) && HeaderOf(g) == old(HeaderOf(g)))
    ensures g.ghostFrames == old(g.ghostFrames)
  {
    if idx == 0 {
      if field != HeaderVersion {
        return Failed(Error(BadHeaderVersion));
      }
    } else if idx == 1 {
      var id := ParseI64(field);
      if id.None? {
        return Failed(Panic(ForcedIdNotInteger));
      }
      g.forcedGhostId := id.value;
    } else if idx == 2 {
      g.levelName := field;
    } else if idx == 3 {
      var time := ParseF64(field);
      if time.None? {
        return Failed(Panic(TotalTimeNotNumber));
      }
      g.totalTime := time.value;
    } else if idx == 4 {
      if field != HeaderTick {
        return Failed(Error(BadHeaderTick));
      }
    } else {
      return Failed(Error(UnknownHeaderField));
    }
    o := Done(());
  }

  /** `parse`: the header into the ghost's fields, then the frames onto its
      frame list. */
  method Parse(g: Ghost, buffer: string) returns (o: Outcome<()>)
    modifies g
    ensures var r := Decoded(buffer, old(g.State()));
      g.State() == r.state && o == r.outcome
  {
    var split := SplitOnce(buffer, '$');
    if split.None? {
      return Failed(Error(MissingFrameDelimiter));
    }
    var firstFrame := split.value.0;
    var remainingFrames := split.value.1;
    var fields := Split(firstFrame, '/');
    ghost var h0 := HeaderOf(g);
    var idx := 0;
    while idx < |fields|
      invariant 0 <= idx <= |fields|
      invariant DecodeHeader(fields, 0, h0) == DecodeHeader(fields[idx..], idx, HeaderOf(g))
      invariant g.ghostFrames == old(g.ghostFrames)
    {
      assert fields[idx..][1..] == fields[idx + 1..];
      var step := ApplyHeaderField(g, idx, fields[idx]);
      if step.Failed? {
        return step;
      }
      idx := idx + 1;
    }
    assert fields[idx..] == [];
    var fileFrames := Split(remainingFrames, '|');
    o := ParseFrames(g, fileFrames);
  }
}
