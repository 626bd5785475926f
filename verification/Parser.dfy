/** The record parser of cddb_parse_record as a machine on values. The `From...` functions are the
    case labels of its switch, in order, each falling through to the next one. `Apply` is the same
    machine as a flat table: which label takes the line, and what that does. */
module Parser {
  import opened Text
  import opened Patterns
  import opened Records

  // --- control

  datatype State = Start | TrackOffsets | DiscLength | DiscRevision | DiscTitle | DiscYear | DiscGenre
                 | DiscExt | TrackTitle | TrackExt | PlayOrder | EndDot | Stop

  /** The position of a state's label in the switch. */
  function Rank(s: State): nat
  {
    match s
    case Start => 0 case TrackOffsets => 1 case DiscLength => 2 case DiscRevision => 3
    case DiscTitle => 4 case DiscYear => 5 case DiscGenre => 6 case TrackTitle => 7
    case DiscExt => 8 case TrackExt => 9 case PlayOrder => 10 case EndDot => 11 case Stop => 12
  }

  datatype Multi = NoMulti | MultiArtist | MultiTitle | MultiExt

  datatype Control = Control(state: State, multi: Multi, trackNo: nat, oldNo: int)

  datatype Machine = Machine(at: Control, disc: DiscData)

  const INITIAL := Control(Start, NoMulti, 0, -1)

  /** One line either leaves the machine running or makes the parser give up with the disc as it is. */
  datatype Outcome = Go(m: Machine) | Fail(disc: DiscData)

  // --- what a value does to the disc

  /** One DTITLE value, after the fields were cleared if it is the first. */
  function AddDiscTitle(d: DiscData, multi: Multi, v: Titled): (DiscData, Multi)
  {
    match v
    case Both(a, t) => (d.(artist := Append(d.artist, a), title := Append(d.title, t)), MultiTitle)
    case Only(x) =>
      if multi != MultiTitle then (d.(artist := Append(d.artist, x)), MultiArtist)
      else (d.(title := Append(d.title, x)), MultiTitle)
  }

  /** One TTITLE value, after the fields were cleared if it is the first for the track. A title read so
      far turns out to be the artist when the delimiter comes. */
  function AddTrackTitle(t: TrackData, multi: Multi, v: Titled): (TrackData, Multi)
  {
    match v
    case Both(a, x) => (t.(artist := Append(t.title, a), title := Some(x)), MultiTitle)
    case Only(x) => (t.(title := Append(t.title, x)), multi)
  }

  /** An extended-data value; an empty one is not even appended. */
  function AddExt(e: Str, v: string): Str
  {
    if v == "" then e else Append(e, v)
  }

  // --- the switch

  function FromDot(m: Machine, s: Scan): Outcome
  {
    if s.dot then Go(m.(at := m.at.(state := Stop))) else Go(m)
  }

  function FromPlayOrder(m: Machine, s: Scan): Outcome
  {
    if s.order then Go(m.(at := m.at.(state := EndDot))) else FromDot(m, s)
  }

  function FromTrackExt(m: Machine, s: Scan): Outcome
  {
    match s.extt
    case None => FromPlayOrder(m, s)
    case Some((n, v)) =>
      if n >= |m.disc.tracks| then Fail(m.disc) else
        var t := m.disc.tracks[n];
        var e := if n != m.at.oldNo then None else t.extData;
        Go(Machine(m.at.(state := TrackExt, trackNo := n, oldNo := n),
                   m.disc.(tracks := m.disc.tracks[n := t.(extData := AddExt(e, v))])))
  }

  function FromDiscExt(m: Machine, s: Scan): Outcome
  {
    match s.extd
    case None => FromTrackExt(m.(at := m.at.(multi := NoMulti)), s)
    case Some(v) =>
      var e := if m.at.multi == NoMulti then None else m.disc.extData;
      var multi := if m.at.multi == NoMulti then MultiExt else m.at.multi;
      Go(Machine(m.at.(state := DiscExt, multi := multi), m.disc.(extData := AddExt(e, v))))
  }

  function FromTrackTitle(m: Machine, s: Scan): Outcome
  {
    match s.ttitle
    case None => FromDiscExt(m.(at := m.at.(multi := NoMulti, oldNo := -1)), s)
    case Some((n, v)) =>
      if n >= |m.disc.tracks| then Fail(m.disc) else
        var t := m.disc.tracks[n];
        var first := n != m.at.oldNo;
        var (t', multi) := AddTrackTitle(if first then t.(artist := None, title := None) else t,
                                         if first then MultiArtist else m.at.multi, v);
        Go(Machine(Control(TrackTitle, multi, n, n), m.disc.(tracks := m.disc.tracks[n := t'])))
  }

  function FromGenre(m: Machine, s: Scan): Outcome
  {
    match s.genre
    case None => FromTrackTitle(m, s)
    case Some(g) => Go(Machine(m.at.(state := TrackTitle), m.disc.(genre := Some(g))))
  }

  function FromYear(m: Machine, s: Scan): Outcome
  {
    match s.year
    case None => FromGenre(m, s)
    case Some(y) => Go(Machine(m.at.(state := DiscGenre), m.disc.(year := y)))
  }

  /** A title that never met its delimiter: artist and title are the same. */
  function FixTitle(d: DiscData): DiscData
  {
    if d.artist.Some? && d.title.None? then d.(title := d.artist) else d
  }

  function FromDiscTitle(m: Machine, s: Scan): Outcome
  {
    match s.dtitle
    case Some(v) =>
      var d := if m.at.multi == NoMulti then m.disc.(artist := None, title := None) else m.disc;
      var (d', multi) := AddDiscTitle(d, m.at.multi, v);
      Go(Machine(m.at.(multi := multi), d'))
    case None =>
      if m.at.multi == NoMulti then Go(m)
      else FromYear(Machine(m.at.(multi := NoMulti), FixTitle(m.disc)), s)
  }

  function FromRevision(m: Machine, s: Scan): Outcome
  {
    match s.revision
    case None => Go(m)
    case Some(r) => Go(Machine(m.at.(state := DiscTitle), m.disc.(revision := r)))
  }

  function FromLength(m: Machine, s: Scan): Outcome
  {
    match s.length
    case None => Go(m)
    case Some(l) => Go(Machine(m.at.(state := DiscRevision), m.disc.(length := l)))
  }

  function SetOffset(ts: seq<TrackData>, n: nat, offset: int): seq<TrackData>
  {
    if n >= |ts| then ts + [NEW_TRACK.(frameOffset := offset)]
    else ts[n := ts[n].(frameOffset := offset)]
  }

  function FromOffsets(m: Machine, s: Scan): Outcome
  {
    match s.offset
    case None => FromLength(m.(at := m.at.(state := DiscLength)), s)
    case Some(o) =>
      Go(Machine(m.at.(trackNo := m.at.trackNo + 1),
                 m.disc.(tracks := SetOffset(m.disc.tracks, m.at.trackNo, o))))
  }

  function FromStart(m: Machine, s: Scan): Outcome
  {
    if s.heading then Go(m.(at := m.at.(state := TrackOffsets))) else Go(m)
  }

  /** The switch: enter at the label of the state. */
  function Step(m: Machine, s: Scan): Outcome
  {
    match m.at.state
    case Start => FromStart(m, s)
    case TrackOffsets => FromOffsets(m, s)
    case DiscLength => FromLength(m, s)
    case DiscRevision => FromRevision(m, s)
    case DiscTitle => FromDiscTitle(m, s)
    case DiscYear => FromYear(m, s)
    case DiscGenre => FromGenre(m, s)
    case TrackTitle => FromTrackTitle(m, s)
    case DiscExt => FromDiscExt(m, s)
    case TrackExt => FromTrackExt(m, s)
    case PlayOrder => FromPlayOrder(m, s)
    case EndDot => FromDot(m, s)
    case Stop => Go(m)
  }

  // --- the loop

  datatype Result = Result(ok: bool, at: Control, disc: DiscData)

  /** Lines are read until the machine stops, fails, or the input ends; the end counts as a stop. */
  function Run(m: Machine, lines: seq<string>): Result
    decreases |lines|
  {
    if lines == [] then Result(true, m.at.(state := Stop), m.disc)
    else
      match Step(m, ScanLine(lines[0]))
      case Fail(d) => Result(false, m.at, d)
      case Go(m') => if m'.at.state == Stop then Result(true, m'.at, m'.disc) else Run(m', lines[1..])
  }

  /** How many lines the loop reads. */
  function Used(m: Machine, lines: seq<string>): (n: nat)
    ensures n <= |lines|
    decreases |lines|
  {
    if lines == [] then 0
    else
      match Step(m, ScanLine(lines[0]))
      case Fail(d) => 1
      case Go(m') => if m'.at.state == Stop then 1 else 1 + Used(m', lines[1..])
  }

  function Parse(d: DiscData, lines: seq<string>): Result
  {
    Run(Machine(INITIAL, d), lines)
  }

  // --- the flat table

  datatype Effect = Skip | Heading | Offset(n: int) | Length(l: nat) | Revision(r: nat) | DTitle(dv: Titled)
                  | Year(y: nat) | Genre(g: string) | TTitle(i: nat, tv: Titled) | ExtD(x: string)
                  | ExtT(j: nat, e: string) | Order | Dot

  /** What a line means once the artist and title of the disc are complete, given how far the
      machine has come. */
  function BodyEffect(rank: nat, s: Scan): Effect
  {
    if rank <= 5 && s.year.Some? then Year(s.year.value)
    else if rank <= 6 && s.genre.Some? then Genre(s.genre.value)
    else if rank <= 7 && s.ttitle.Some? then TTitle(s.ttitle.value.0, s.ttitle.value.1)
    else if rank <= 8 && s.extd.Some? then ExtD(s.extd.value)
    else if rank <= 9 && s.extt.Some? then ExtT(s.extt.value.0, s.extt.value.1)
    else if rank <= 10 && s.order then Order
    else if s.dot then Dot
    else Skip
  }

  function EffectOf(at: Control, s: Scan): Effect
  {
    match at.state
    case Start => if s.heading then Heading else Skip
    case TrackOffsets =>
      if s.offset.Some? then Offset(s.offset.value)
      else if s.length.Some? then Length(s.length.value) else Skip
    case DiscLength => if s.length.Some? then Length(s.length.value) else Skip
    case DiscRevision => if s.revision.Some? then Revision(s.revision.value) else Skip
    case DiscTitle =>
      if s.dtitle.Some? then DTitle(s.dtitle.value)
      else if at.multi == NoMulti then Skip else BodyEffect(4, s)
    case _ => BodyEffect(Rank(at.state), s)
  }

  /** Ends the value or section that the machine is in the middle of. */
  function Close(m: Machine): Machine
  {
    match m.at.state
    case TrackOffsets => m.(at := m.at.(state := DiscLength))
    case DiscTitle => if m.at.multi == NoMulti then m
                      else Machine(m.at.(multi := NoMulti), FixTitle(m.disc))
    case TrackTitle => m.(at := m.at.(multi := NoMulti, oldNo := -1))
    case DiscExt => m.(at := m.at.(multi := NoMulti))
    case _ => m
  }

  /** Track n with one more piece of its title: the first piece replaces what was there. */
  function TitledTrack(at: Control, t: TrackData, n: nat, v: Titled): (TrackData, Multi)
  {
    if n == at.oldNo then AddTrackTitle(t, at.multi, v)
    else AddTrackTitle(t.(artist := None, title := None), MultiArtist, v)
  }

  /** Track n with one more piece of its extended data: the first piece replaces what was there. */
  function ExtendedTrack(at: Control, t: TrackData, n: nat, v: string): TrackData
  {
    t.(extData := AddExt(if n == at.oldNo then t.extData else None, v))
  }

  function Apply(m: Machine, e: Effect): Outcome
  {
    match e
    case Skip => Go(Close(m))
    case Heading => Go(m.(at := m.at.(state := TrackOffsets)))
    case Offset(o) =>
      Go(Machine(m.at.(trackNo := m.at.trackNo + 1),
                 m.disc.(tracks := SetOffset(m.disc.tracks, m.at.trackNo, o))))
    case Length(l) => Go(Machine(m.at.(state := DiscRevision), m.disc.(length := l)))
    case Revision(r) => Go(Machine(m.at.(state := DiscTitle), m.disc.(revision := r)))
    case DTitle(v) =>
      var d := if m.at.multi == NoMulti then m.disc.(artist := None, title := None) else m.disc;
      var (d', multi) := AddDiscTitle(d, m.at.multi, v);
      Go(Machine(m.at.(multi := multi), d'))
    case Year(y) => var c := Close(m); Go(Machine(c.at.(state := DiscGenre), c.disc.(year := y)))
    case Genre(g) => var c := Close(m); Go(Machine(c.at.(state := TrackTitle), c.disc.(genre := Some(g))))
    case TTitle(n, v) =>
      var c := if m.at.state == TrackTitle then m else Close(m);
      if n >= |c.disc.tracks| then Fail(c.disc) else
        var (t', multi) := TitledTrack(c.at, c.disc.tracks[n], n, v);
        Go(Machine(Control(TrackTitle, multi, n, n), c.disc.(tracks := c.disc.tracks[n := t'])))
    case ExtD(v) =>
      var c := if m.at.state == DiscExt then m else Close(m);
      var old_ := if c.at.multi == MultiExt then c.disc.extData else None;
      Go(Machine(c.at.(state := DiscExt, multi := MultiExt), c.disc.(extData := AddExt(old_, v))))
    case ExtT(n, v) =>
      var c := Close(m);
      if n >= |c.disc.tracks| then Fail(c.disc) else
        Go(Machine(c.at.(state := TrackExt, trackNo := n, oldNo := n),
                   c.disc.(tracks := c.disc.tracks[n := ExtendedTrack(c.at, c.disc.tracks[n], n, v)])))
    case Order => var c := Close(m); Go(c.(at := c.at.(state := EndDot)))
    case Dot => var c := Close(m); Go(c.(at := c.at.(state := Stop)))
  }

  /** The control values the loop can be in between two lines. */
  predicate Sound(at: Control)
  {
    && at.state !in {DiscYear, PlayOrder}
    && -1 <= at.oldNo
    && (at.state in {Start, TrackOffsets, DiscLength, DiscRevision, DiscTitle, DiscGenre, DiscExt} ==>
          at.oldNo == -1)
    && (at.state in {Start, TrackOffsets, DiscLength, DiscRevision, DiscGenre, TrackExt} ==>
          at.multi == NoMulti)
    && (at.state == Start ==> at.trackNo == 0)
    && (at.state == DiscTitle ==> at.multi != MultiExt)
    && (at.state == TrackTitle ==> if at.oldNo == -1 then at.multi == NoMulti
                                   else at.multi in {MultiArtist, MultiTitle})
    && (at.state == DiscExt ==> at.multi in {NoMulti, MultiExt})
    && (at.state in {EndDot, Stop} ==> at.multi == NoMulti)
  }

  /** Between two lines, the offsets counted so far have found or made their tracks. */
  predicate Steady(m: Machine)
  {
    Sound(m.at) && (m.at.state == TrackOffsets ==> m.at.trackNo <= |m.disc.tracks|)
  }

  lemma GenreIsTable(m: Machine, s: Scan)
    requires Steady(m) && m.at.state == DiscGenre
    ensures Step(m, s) == Apply(m, EffectOf(m.at, s))
    ensures Step(m, s).Go? ==> Steady(Step(m, s).m)
  {
    match EffectOf(m.at, s)
    case Genre(_) => case TTitle(_, _) => case ExtD(_) => case ExtT(_, _) =>
    case Order => case Dot => case Skip =>
  }

  lemma TitleIsTable(m: Machine, s: Scan)
    requires Steady(m) && m.at.state == TrackTitle
    ensures Step(m, s) == Apply(m, EffectOf(m.at, s))
    ensures Step(m, s).Go? ==> Steady(Step(m, s).m)
  {
    match EffectOf(m.at, s)
    case TTitle(_, _) => case ExtD(_) => case ExtT(_, _) =>
    case Order => case Dot => case Skip =>
  }

  lemma ExtIsTable(m: Machine, s: Scan)
    requires Steady(m) && m.at.state == DiscExt
    ensures Step(m, s) == Apply(m, EffectOf(m.at, s))
    ensures Step(m, s).Go? ==> Steady(Step(m, s).m)
  {
    match EffectOf(m.at, s)
    case ExtD(_) => case ExtT(_, _) => case Order => case Dot => case Skip =>
  }

  lemma BodyIsTable(m: Machine, s: Scan)
    requires Steady(m) && m.at.state == DiscTitle && m.at.multi != NoMulti
    ensures FromYear(Machine(m.at.(multi := NoMulti), FixTitle(m.disc)), s) == Apply(m, BodyEffect(4, s))
    ensures Apply(m, BodyEffect(4, s)).Go? ==> Steady(Apply(m, BodyEffect(4, s)).m)
  {
    var c := Machine(m.at.(multi := NoMulti), FixTitle(m.disc));
    assert Close(m) == c;
    match BodyEffect(4, s)
    case Year(_) => case Genre(_) => case TTitle(_, _) => case ExtD(_) => case ExtT(_, _) =>
    case Order => case Dot => case Skip =>
  }

  /** The switch with its fall-through does what the table says, and stays in the control values
      that Sound lists. */
  lemma StepIsTable(m: Machine, s: Scan)
    requires Steady(m) && m.at.state != Stop
    ensures Step(m, s) == Apply(m, EffectOf(m.at, s))
    ensures Step(m, s).Go? ==> Steady(Step(m, s).m)
  {
    match m.at.state
    case DiscTitle => if m.at.multi != NoMulti && s.dtitle.None? { BodyIsTable(m, s); }
    case DiscGenre => GenreIsTable(m, s);
    case TrackTitle => TitleIsTable(m, s);
    case DiscExt => ExtIsTable(m, s);
    case _ =>
  }
}
