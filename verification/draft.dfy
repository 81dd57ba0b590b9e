/**
 * The calibration draft held by the certificate form: calibration points
 * (one list for single-channel pipettes, one point per channel and position
 * for multichannel ones) and the syringes of a repeater pipette, each with
 * its own points.  Every edit is a pure function from the old draft to the
 * new one; the clock reading used for fresh ids is a parameter.
 */
module Draft {
  import opened Wrappers
  import opened JsText
  import opened JsNumber
  import opened Readings

  /** The results stored on a point; every field starts as `null`. */
  datatype Stats = Stats(
    media: Value,
    mediaMassa: Value,
    inexatidao: Value,
    inexatidaoPercentual: Value,
    desvioPadrao: Value,
    coeficienteVariacao: Value)

  const NullStats: Stats := Stats(Null, Null, Null, Null, Null, Null)

  /** Where a point sits: a plain point, a channel and position, or a syringe slot. */
  datatype Tag = Plain | Channel(canal: nat, posicao: nat) | SyringeSlot(index: nat)

  datatype Point = Point(
    id: int,
    volumeNominal: string,
    unidade: string,
    medicoes: seq<string>,
    valoresTexto: string,
    stats: Stats,
    tag: Tag)

  datatype Syringe = Syringe(id: int, volumeNominal: string, unidade: string, points: seq<Point>)

  datatype InstrumentType = Monocanal | Multicanal

  /** The points of the form and the number of channels it shows. */
  datatype Form = Form(kind: InstrumentType, points: seq<Point>, numeroCanais: nat)

  /** A fresh point: no nominal volume, ten empty readings, no results. */
  function EmptyPoint(id: int, tag: Tag): (p: Point)
    ensures |p.medicoes| == SlotCount && forall i :: 0 <= i < SlotCount ==> p.medicoes[i] == ""
    ensures p.volumeNominal == "" && p.valoresTexto == "" && p.stats == NullStats
  {
    Point(id, "", "µL", seq(SlotCount, _ => ""), "", NullStats, tag)
  }

  /** The channel of a point, `undefined` for a point without one. */
  function CanalOf(p: Point): Option<nat> {
    if p.tag.Channel? then Some(p.tag.canal) else None
  }

  /** The position of a channel point, `undefined` for other points. */
  function PositionOf(p: Point): Option<nat> {
    if p.tag.Channel? then Some(p.tag.posicao) else None
  }

  /** Whether a point follows an edit of channel 1 at position `pos`: it is off channel 1 and at that position. */
  predicate FollowsChannel1(q: Point, pos: Option<nat>) {
    CanalOf(q) != Some(1) && PositionOf(q) == pos
  }

  /** The first point with the given id, like `Array.prototype.find`. */
  function FindPoint(points: seq<Point>, id: int): (r: Option<nat>)
    ensures r.Some? ==>
      && r.value < |points| && points[r.value].id == id
      && forall j :: 0 <= j < r.value ==> points[j].id != id
    ensures r.None? ==> forall j :: 0 <= j < |points| ==> points[j].id != id
  {
    if points == [] then None
    else if points[0].id == id then Some(0)
    else
      var r := FindPoint(points[1..], id);
      if r.Some? then Some(r.value + 1) else None
  }

  // ---------------------------------------------------------------------------
  // Points
  // ---------------------------------------------------------------------------

  /** `adicionarPonto`: a fresh plain point goes to the end. */
  function AddPoint(points: seq<Point>, now: int): (r: seq<Point>)
    ensures |r| == |points| + 1 && r[..|points|] == points && r[|points|] == EmptyPoint(now, Plain)
  {
    points + [EmptyPoint(now, Plain)]
  }

  /** The test that keeps the points whose id differs from `id`. */
  function OtherId(id: int): Point -> bool {
    (p: Point) => p.id != id
  }

  /** The points other than those with the given id, in order. */
  function WithoutId(points: seq<Point>, id: int): seq<Point> {
    Filter(points, OtherId(id))
  }

  /** The points outside the given channel, in order. */
  function WithoutCanal(points: seq<Point>, canal: Option<nat>): seq<Point> {
    Filter(points, (p: Point) => CanalOf(p) != canal)
  }

  /**
   * `removerPontoCalibracao`: a multichannel form drops the whole channel of
   * the point, but only while more than one channel is left; a single-channel
   * form drops the point, but never its last one.
   */
  function RemovePoint(f: Form, id: int): Form {
    if f.kind == Multicanal then
      var k := FindPoint(f.points, id);
      if k.Some? && f.numeroCanais > 1 then
        Form(f.kind, WithoutCanal(f.points, CanalOf(f.points[k.value])), f.numeroCanais - 1)
      else f
    else if |f.points| <= 1 then f
    else Form(f.kind, WithoutId(f.points, id), f.numeroCanais)
  }

  /** On a single-channel form, the last point is never removed. */
  lemma RemoveKeepsLastPoint(f: Form, id: int)
    requires f.kind == Monocanal && |f.points| <= 1
    ensures RemovePoint(f, id) == f
  {
  }

  /**
   * On a single-channel form with more than one point, exactly the points
   * with that id go: the others stay, in order.
   */
  lemma RemovePointExactly(f: Form, id: int)
    requires f.kind == Monocanal && |f.points| > 1
    ensures var r := RemovePoint(f, id).points;
      && (forall i :: 0 <= i < |r| ==> r[i].id != id && r[i] in f.points)
      && (forall i :: 0 <= i < |f.points| && f.points[i].id != id ==> f.points[i] in r)
      && IsSubsequence(r, f.points)
  {
    FilterIsSubsequence(f.points, OtherId(id));
  }

  /** When ids are distinct and the id is present, one point fewer remains. */
  lemma RemovePointCount(f: Form, id: int, i: nat)
    requires f.kind == Monocanal && |f.points| > 1
    requires forall a, b :: 0 <= a < b < |f.points| ==> f.points[a].id != f.points[b].id
    requires i < |f.points| && f.points[i].id == id
    ensures |RemovePoint(f, id).points| == |f.points| - 1
  {
    var ps := f.points;
    var before, after := ps[..i], ps[i + 1..];
    assert ps == before + [ps[i]] + after;
    var keep := OtherId(id);
    forall j | 0 <= j < |before|
      ensures keep(before[j])
    {
      assert before[j] == ps[j];
    }
    forall j | 0 <= j < |after|
      ensures keep(after[j])
    {
      assert after[j] == ps[i + 1 + j];
    }
    FilterAppend(before + [ps[i]], after, keep);
    FilterAppend(before, [ps[i]], keep);
    FilterAll(before, keep);
    FilterAll(after, keep);
    assert Filter([ps[i]], keep) == [];
  }

  /**
   * On a multichannel form, removal takes out every point of the channel
   * and keeps all the others when more than one channel is left; otherwise,
   * or when no point has that id, nothing changes.
   */
  lemma RemoveChannelExactly(f: Form, id: int)
    requires f.kind == Multicanal
    ensures var r := RemovePoint(f, id);
      var k := FindPoint(f.points, id);
      if k.Some? && f.numeroCanais > 1 then
        var c := CanalOf(f.points[k.value]);
        && r.numeroCanais == f.numeroCanais - 1
        && (forall i :: 0 <= i < |r.points| ==> CanalOf(r.points[i]) != c && r.points[i] in f.points)
        && (forall i :: 0 <= i < |f.points| && CanalOf(f.points[i]) != c ==> f.points[i] in r.points)
      else r == f
  {
  }

  /** The test that keeps the points of channel `n`. */
  function InCanal(n: nat): Point -> bool {
    (p: Point) => CanalOf(p) == Some(n)
  }

  /**
   * `removerPontoDiretamente`.  For a channel, every point of channel
   * `numero` is removed through `removerPontoCalibracao`, but each call reads
   * the same, not yet updated, form, so the last call decides the result.
   */
  function RemovePointDirect(f: Form, id: int, numero: nat, isCanal: bool): Form {
    if f.kind == Multicanal && isCanal then
      if f.numeroCanais <= 1 then f
      else
        var members := Filter(f.points, InCanal(numero));
        if members == [] then f else RemovePoint(f, members[|members| - 1].id)
    else if |f.points| <= 1 then f
    else RemovePoint(f, id)
  }

  /**
   * With distinct ids, removing channel `numero` directly drops exactly that
   * channel and counts one channel fewer, provided another channel is left
   * and the channel has a point.
   */
  lemma RemoveChannelDirect(f: Form, numero: nat, id: int, i: nat)
    requires f.kind == Multicanal && f.numeroCanais > 1
    requires forall a, b :: 0 <= a < b < |f.points| ==> f.points[a].id != f.points[b].id
    requires i < |f.points| && CanalOf(f.points[i]) == Some(numero)
    ensures RemovePointDirect(f, id, numero, true)
      == Form(f.kind, WithoutCanal(f.points, Some(numero)), f.numeroCanais - 1)
  {
    var members := Filter(f.points, InCanal(numero));
    assert f.points[i] in members;
    var last := members[|members| - 1];
    assert last in f.points;
    var k := FindPoint(f.points, last.id);
    assert f.points[k.value] == last;
  }

  /** A channel without points, or the only channel left, is not removed. */
  lemma RemoveChannelDirectRefused(f: Form, numero: nat, id: int)
    requires f.kind == Multicanal
    requires f.numeroCanais <= 1 || forall i :: 0 <= i < |f.points| ==> CanalOf(f.points[i]) != Some(numero)
    ensures RemovePointDirect(f, id, numero, true) == f
  {
    if f.numeroCanais > 1 {
      FilterNone(f.points, InCanal(numero));
    }
  }

  /** `atualizarPontoCalibracao` and friends: `update` is applied to the points with that id and no other. */
  function UpdatePoint(points: seq<Point>, id: int, update: Point -> Point): (r: seq<Point>)
    ensures |r| == |points|
    ensures forall i :: 0 <= i < |points| ==> r[i] == if points[i].id == id then update(points[i]) else points[i]
  {
    Map(points, (p: Point) => if p.id == id then update(p) else p)
  }

  /** `atualizarMedicao`: the reading at `index` of the point with that id becomes `value`. */
  function SetReading(p: Point, index: nat, value: string): Point {
    if index < |p.medicoes| then p.(medicoes := p.medicoes[index := value]) else p
  }

  /** Setting one reading leaves the other nine and every other field as they were. */
  lemma SetReadingOnly(p: Point, index: nat, value: string)
    requires index < |p.medicoes|
    ensures var q := SetReading(p, index, value);
      && |q.medicoes| == |p.medicoes| && q.medicoes[index] == value
      && (forall j :: 0 <= j < |p.medicoes| && j != index ==> q.medicoes[j] == p.medicoes[j])
      && q.(medicoes := p.medicoes) == p
  {
  }

  // ---------------------------------------------------------------------------
  // Layout rebuilds
  // ---------------------------------------------------------------------------

  /** The point a multichannel rebuild creates for channel `c`, position `k`. */
  function ChannelPoint(now: int, c: nat, k: nat): Point {
    EmptyPoint(now + c * 100 + k, Channel(c, k))
  }

  /**
   * `reorganizarPontosParaMulticanal`: for each channel 1..n, for each
   * position 1..perChannel, a fresh point.
   */
  method RebuildMultichannel(n: nat, perChannel: nat, now: int) returns (r: seq<Point>)
    ensures |r| == n * perChannel
    ensures forall j :: 0 <= j < |r| ==>
      && r[j].tag.Channel?
      && 1 <= r[j].tag.canal <= n && 1 <= r[j].tag.posicao <= perChannel
      && j == (r[j].tag.canal - 1) * perChannel + (r[j].tag.posicao - 1)
      && r[j] == ChannelPoint(now, r[j].tag.canal, r[j].tag.posicao)
  {
    r := [];
    var canal := 1;
    while canal <= n
      invariant 1 <= canal <= n + 1
      invariant |r| == (canal - 1) * perChannel
      invariant forall j :: 0 <= j < |r| ==>
        && r[j].tag.Channel?
        && 1 <= r[j].tag.canal < canal && 1 <= r[j].tag.posicao <= perChannel
        && j == (r[j].tag.canal - 1) * perChannel + (r[j].tag.posicao - 1)
        && r[j] == ChannelPoint(now, r[j].tag.canal, r[j].tag.posicao)
    {
      var ponto := 1;
      while ponto <= perChannel
        invariant 1 <= ponto <= perChannel + 1
        invariant |r| == (canal - 1) * perChannel + (ponto - 1)
        invariant forall j :: 0 <= j < |r| ==>
          && r[j].tag.Channel?
          && 1 <= r[j].tag.canal <= canal && 1 <= r[j].tag.posicao <= perChannel
          && (r[j].tag.canal == canal ==> r[j].tag.posicao < ponto)
          && j == (r[j].tag.canal - 1) * perChannel + (r[j].tag.posicao - 1)
          && r[j] == ChannelPoint(now, r[j].tag.canal, r[j].tag.posicao)
      {
        r := r + [ChannelPoint(now, canal, ponto)];
        ponto := ponto + 1;
      }
      canal := canal + 1;
    }
  }

  /** Each channel and position of the grid has a place in the channel-major order. */
  lemma GridIndex(n: nat, perChannel: nat, c: nat, k: nat)
    requires 1 <= c <= n && 1 <= k <= perChannel
    ensures 0 <= (c - 1) * perChannel + (k - 1) < n * perChannel
  {
    assert (c - 1) * perChannel <= (n - 1) * perChannel;
  }

  /** Two grid cells at the same channel-major place are the same cell: no pair is created twice. */
  lemma GridIndexInjective(perChannel: nat, c1: nat, k1: nat, c2: nat, k2: nat)
    requires c1 >= 1 && c2 >= 1 && 1 <= k1 <= perChannel && 1 <= k2 <= perChannel
    requires (c1 - 1) * perChannel + (k1 - 1) == (c2 - 1) * perChannel + (k2 - 1)
    ensures c1 == c2 && k1 == k2
  {
    if c1 < c2 {
      StepApart(perChannel, c1 - 1, c2 - 1);
    } else if c2 < c1 {
      StepApart(perChannel, c2 - 1, c1 - 1);
    }
  }

  lemma {:induction false} StepApart(p: nat, a: nat, b: nat)
    requires a < b
    ensures b * p >= a * p + p
    decreases b - a
  {
    if b - 1 > a {
      StepApart(p, a, b - 1);
    }
    assert b * p == (b - 1) * p + p;
  }

  /**
   * Ids of the rebuilt points, `Date.now() + canal * 100 + ponto`, are distinct
   * as long as a channel has at most 100 positions.
   */
  lemma ChannelIdsDistinct(now: int, perChannel: nat, c1: nat, k1: nat, c2: nat, k2: nat)
    requires perChannel <= 100
    requires 1 <= k1 <= perChannel && 1 <= k2 <= perChannel
    requires ChannelPoint(now, c1, k1).id == ChannelPoint(now, c2, k2).id
    ensures c1 == c2 && k1 == k2
  {
  }

  /** With 101 positions, channel 1 position 101 and channel 2 position 1 share an id. */
  lemma ChannelIdsCollide(now: int)
    ensures ChannelPoint(now, 1, 101).id == ChannelPoint(now, 2, 1).id
  {
  }

  /** `reorganizarPontosParaMonocanal`: back to a single fresh point. */
  function RebuildMonochannel(now: int): (r: seq<Point>)
    ensures |r| == 1 && r[0] == EmptyPoint(now, Plain)
  {
    [EmptyPoint(now, Plain)]
  }

  // ---------------------------------------------------------------------------
  // Syringes of a repeater pipette
  // ---------------------------------------------------------------------------

  /** `adicionarSeringa`: a fresh syringe with three fresh points, slots 1 to 3. */
  function AddSyringe(syringes: seq<Syringe>, now: int): (r: seq<Syringe>)
    ensures |r| == |syringes| + 1 && r[..|syringes|] == syringes
    ensures var s := r[|syringes|];
      && s.id == now && s.volumeNominal == ""
      && |s.points| == 3
      && forall i :: 0 <= i < 3 ==> s.points[i] == EmptyPoint(now + i + 1, SyringeSlot(i + 1))
  {
    var pts := seq(3, i requires 0 <= i < 3 => EmptyPoint(now + i + 1, SyringeSlot(i + 1)));
    syringes + [Syringe(now, "", "µL", pts)]
  }

  /** `removerSeringa`: refuses to drop the last syringe, otherwise drops those with that id. */
  function RemoveSyringe(syringes: seq<Syringe>, id: int): seq<Syringe> {
    if |syringes| <= 1 then syringes
    else Filter(syringes, OtherSyringe(id))
  }

  /** The test that keeps the syringes whose id differs from `id`. */
  function OtherSyringe(id: int): Syringe -> bool {
    (s: Syringe) => s.id != id
  }

  /** The last syringe stays; otherwise exactly the syringes with that id go, and the rest keep their order. */
  lemma RemoveSyringeExactly(syringes: seq<Syringe>, id: int)
    ensures |syringes| <= 1 ==> RemoveSyringe(syringes, id) == syringes
    ensures |syringes| > 1 ==>
      var r := RemoveSyringe(syringes, id);
      && (forall i :: 0 <= i < |r| ==> r[i].id != id && r[i] in syringes)
      && (forall i :: 0 <= i < |syringes| && syringes[i].id != id ==> syringes[i] in r)
      && IsSubsequence(r, syringes)
  {
    FilterIsSubsequence(syringes, OtherSyringe(id));
  }

  /** `atualizarSeringa`, `atualizarPontoSeringa`, `atualizarMedicaoSeringa`: one syringe changes. */
  function UpdateSyringe(syringes: seq<Syringe>, id: int, update: Syringe -> Syringe): (r: seq<Syringe>)
    ensures |r| == |syringes|
    ensures forall i :: 0 <= i < |syringes| ==>
      r[i] == if syringes[i].id == id then update(syringes[i]) else syringes[i]
  {
    Map(syringes, (s: Syringe) => if s.id == id then update(s) else s)
  }

  /** Applies `update` to the points with id `pointId` of the syringe with id `syringeId`. */
  function UpdateSyringePoint(syringes: seq<Syringe>, syringeId: int, pointId: int, update: Point -> Point): seq<Syringe> {
    UpdateSyringe(syringes, syringeId, (s: Syringe) => s.(points := UpdatePoint(s.points, pointId, update)))
  }

  /** `handleValoresChangeSeringa`: the pasted text is kept and the readings re-parsed from it. */
  function SetSyringeReadings(syringes: seq<Syringe>, syringeId: int, pointId: int, text: string): seq<Syringe> {
    UpdateSyringePoint(syringes, syringeId, pointId,
      (p: Point) => p.(valoresTexto := text, medicoes := SyringeReadings(text)))
  }

  /**
   * Pasting into a syringe point changes that point's text and readings and
   * nothing else: other syringes, other points and other fields keep their values.
   */
  lemma SetSyringeReadingsOnly(syringes: seq<Syringe>, syringeId: int, pointId: int, text: string)
    ensures var r := SetSyringeReadings(syringes, syringeId, pointId, text);
      && |r| == |syringes|
      && forall i :: 0 <= i < |syringes| ==>
        if syringes[i].id != syringeId then r[i] == syringes[i]
        else
          && r[i].(points := syringes[i].points) == syringes[i]
          && |r[i].points| == |syringes[i].points|
          && forall j :: 0 <= j < |syringes[i].points| ==>
            var p := syringes[i].points[j];
            r[i].points[j] == if p.id == pointId then p.(valoresTexto := text, medicoes := SyringeReadings(text)) else p
  {
  }
}
