/** Products of the day: the rows, every service step as a change of the rows,
    and the order of the card. Days are day numbers. */
module Launches {
  import opened Wrappers

  const SLOTS_PER_DAY := 5

  datatype Status = Submitted | Approved | Live | Ended | Rejected | Withdrawn

  datatype Launch = Launch(
    owner: nat, state: Status, day: Option<int>, position: Option<int>, featured: bool,
    name: string, tagline: string, description: string, kicker: string, url: string, logo: Option<string>,
    contact: string)

  type Rows = map<nat, Launch>

  datatype Error = NotFound | NotPermitted | BadRequest

  /** The fields a body may carry; None leaves a field as it is. Texts are the
      scrubbed ones. */
  datatype Edits = Edits(
    name: Option<string>, tagline: Option<string>, description: Option<string>, kicker: Option<string>)

  /** A link and whether it passes the check: it can be listed and it answers. */
  datatype Link = Link(url: string, answers: bool)

  /** What the submitter's form carries; `logo` is a newly stored one. */
  datatype Form = Form(
    edits: Edits, link: Option<Link>, contact: Option<string>, logo: Option<string>, preferred: Option<int>)

  /** `answers` says whether the draft's link passes the check. */
  datatype Step =
    | Submit(id: nat, draft: Launch, answers: bool)
    | Withdraw(user: nat, id: nat)
    | Update(user: nat, id: nat, form: Form)
    | Delete(user: nat, id: nat)
    | Approve(id: nat, day: int, featured: bool)
    | Reject(id: nat)
    | Edit(id: nat, edits: Edits)
    | Rotate

  predicate Listed(l: Launch) { l.state == Approved || l.state == Live }

  predicate Visible(l: Launch) { l.state == Live || l.state == Ended }

  predicate Editable(l: Launch) { l.state in {Submitted, Status.Withdrawn, Rejected} }

  function Edited(l: Launch, e: Edits): Launch {
    l.(name := e.name.UnwrapOr(l.name), tagline := e.tagline.UnwrapOr(l.tagline),
       description := e.description.UnwrapOr(l.description), kicker := e.kicker.UnwrapOr(l.kicker))
  }

  predicate Carries(e: Edits) {
    e.name.Some? || e.tagline.Some? || e.description.Some? || e.kicker.Some?
  }

  function Unlisted(l: Launch, state: Status): Launch {
    l.(state := state, day := None, position := None)
  }

  function Updated(l: Launch, f: Form): Launch {
    var m := Edited(l, f.edits).(
      url := if f.link.Some? then f.link.value.url else l.url, contact := f.contact.UnwrapOr(l.contact),
      logo := if f.logo.Some? then f.logo else l.logo, day := if f.preferred.Some? then f.preferred else l.day);
    if l.state == Submitted then m else m.(state := Submitted, position := None)
  }

  /** A changed link is checked again. */
  predicate BadLink(l: Launch, f: Form) {
    f.link.Some? && f.link.value.url != l.url && !f.link.value.answers
  }

  /** The positions already given on a day. */
  function Taken(rows: Rows, day: int): set<int> {
    set i | i in rows && Listed(rows[i]) && rows[i].day == Some(day) && rows[i].position.Some? :: rows[i].position.value
  }

  /** The first free position of the day, from `p` on. */
  function FirstFree(taken: set<int>, p: int): int
    requires 1 <= p <= SLOTS_PER_DAY + 1
    decreases SLOTS_PER_DAY + 1 - p
  {
    if p > SLOTS_PER_DAY || p !in taken then p else FirstFree(taken, p + 1)
  }

  function RotatedRow(l: Launch, today: int): Launch {
    if l.state == Approved && l.day.Some? && l.day.value <= today then l.(state := Live)
    else if l.state == Live && l.day.Some? && l.day.value < today then l.(state := Ended)
    else l
  }

  function Rotated(rows: Rows, today: int): Rows {
    map i | i in rows :: RotatedRow(rows[i], today)
  }

  function Owned(rows: Rows, user: nat, id: nat): Result<Launch, Error> {
    if id !in rows then Raised(NotFound)
    else if rows[id].owner != user then Raised(NotPermitted)
    else Ok(rows[id])
  }

  /** What each service step does to the rows, or what it raises. */
  function Apply(rows: Rows, s: Step, today: int): Result<Rows, Error> {
    match s
    case Submit(id, draft, answers) =>
      if !answers then Raised(BadRequest)
      else Ok(rows[id := draft.(state := Submitted, position := None, featured := false)])
    case Withdraw(user, id) =>
      (match Owned(rows, user, id)
       case Raised(e) => Raised(e)
       case Ok(l) =>
         if l.state != Submitted && l.state != Approved then Raised(BadRequest)
         else Ok(rows[id := Unlisted(l, Status.Withdrawn)]))
    case Update(user, id, form) =>
      (match Owned(rows, user, id)
       case Raised(e) => Raised(e)
       case Ok(l) => if !Editable(l) || BadLink(l, form) then Raised(BadRequest) else Ok(rows[id := Updated(l, form)]))
    case Delete(user, id) =>
      (match Owned(rows, user, id)
       case Raised(e) => Raised(e)
       case Ok(l) => if Listed(l) then Raised(BadRequest) else Ok(rows - {id}))
    case Approve(id, day, featured) =>
      if id !in rows then Raised(NotFound)
      else if rows[id].state != Submitted then Raised(BadRequest)
      else if |Taken(rows, day)| >= SLOTS_PER_DAY then Raised(BadRequest)
      else
        Ok(rows[id := rows[id].(position := Some(FirstFree(Taken(rows, day), 1)), day := Some(day), featured := featured,
                                state := if day <= today then Live else Approved)])
    case Reject(id) =>
      if id !in rows then Raised(NotFound)
      else if rows[id].state != Submitted && rows[id].state != Approved then Raised(BadRequest)
      else Ok(rows[id := Unlisted(rows[id], Rejected)])
    case Edit(id, edits) =>
      if id !in rows then Raised(NotFound) else Ok(rows[id := Edited(rows[id], edits)])
    case Rotate => Ok(Rotated(rows, today))
  }

  // The card

  datatype Icon = StoredLogo(path: string) | Favicon(url: string)

  datatype Item =
    | House(day: int)
    | Product(id: nat, title: string, day: int, hover: string, info: Option<string>, icon: Icon)

  function ItemOf(id: nat, l: Launch): Item
    requires l.day.Some?
  {
    Product(id, l.name + ": " + l.tagline, l.day.value,
            if l.featured then "featured" else l.kicker,
            if l.description == "" then None else Some(l.description),
            if l.logo.Some? && l.logo.value != "" then StoredLogo(l.logo.value) else Favicon(l.url))
  }

  predicate OnCard(l: Launch, today: int) {
    Visible(l) && l.day.Some? && today - 1 <= l.day.value <= today
  }

  function CardIds(rows: Rows, today: int): set<nat> {
    set i | i in rows && OnCard(rows[i], today)
  }

  /** A missing position sorts last. */
  predicate PositionBefore(p: Option<int>, q: Option<int>) {
    p.Some? && (q.None? || p.value < q.value)
  }

  /** ORDER BY day DESC, featured DESC, position; the id settles what SQL leaves
      open. */
  predicate Before(a: nat, l: Launch, b: nat, m: Launch)
    requires l.day.Some? && m.day.Some?
  {
    || l.day.value > m.day.value
    || (l.day == m.day && l.featured && !m.featured)
    || (l.day == m.day && l.featured == m.featured && PositionBefore(l.position, m.position))
    || (l.day == m.day && l.featured == m.featured && l.position == m.position && a <= b)
  }

  predicate IsFirst(rows: Rows, ids: set<nat>, a: nat)
    requires forall i | i in ids :: i in rows && rows[i].day.Some?
  {
    a in ids && forall b | b in ids :: Before(a, rows[a], b, rows[b])
  }

  lemma {:induction false} FirstExists(rows: Rows, ids: set<nat>)
    requires forall i | i in ids :: i in rows && rows[i].day.Some?
    requires ids != {}
    ensures exists a :: IsFirst(rows, ids, a)
    decreases |ids|
  {
    var x :| x in ids;
    if ids == {x} {
      assert IsFirst(rows, ids, x);
    } else {
      assert ids - {x} != {};
      FirstExists(rows, ids - {x});
      var a :| IsFirst(rows, ids - {x}, a);
      if Before(a, rows[a], x, rows[x]) {
        assert IsFirst(rows, ids, a);
      } else {
        assert IsFirst(rows, ids, x);
      }
    }
  }

  function Ordered(rows: Rows, ids: set<nat>): (order: seq<nat>)
    requires forall i | i in ids :: i in rows && rows[i].day.Some?
    ensures |order| == |ids|
    ensures forall i :: i in order <==> i in ids
  {
    if ids == {} then []
    else
      FirstExists(rows, ids);
      var a :| IsFirst(rows, ids, a);
      [a] + Ordered(rows, ids - {a})
  }

  lemma OrderedHead(rows: Rows, ids: set<nat>) returns (a: nat)
    requires forall i | i in ids :: i in rows && rows[i].day.Some?
    requires ids != {}
    ensures IsFirst(rows, ids, a) && Ordered(rows, ids) == [a] + Ordered(rows, ids - {a})
  {
    FirstExists(rows, ids);
    a := Ordered(rows, ids)[0];
    assert Ordered(rows, ids) == [a] + Ordered(rows, ids - {a});
  }

  /** Each goes before all that follow it. */
  predicate InOrder(rows: Rows, order: seq<nat>)
    requires forall i | i in order :: i in rows && rows[i].day.Some?
  {
    order == [] ||
    (var a, rest := order[0], order[1..];
     (forall b | b in rest :: a != b && Before(a, rows[a], b, rows[b])) && InOrder(rows, rest))
  }

  lemma {:induction false} OrderedInOrder(rows: Rows, ids: set<nat>)
    requires forall i | i in ids :: i in rows && rows[i].day.Some?
    ensures InOrder(rows, Ordered(rows, ids))
    decreases |ids|
  {
    if ids != {} {
      var a := OrderedHead(rows, ids);
      var rest := Ordered(rows, ids - {a});
      OrderedInOrder(rows, ids - {a});
      assert ([a] + rest)[1..] == rest;
    }
  }

  lemma {:induction false} InOrderAt(rows: Rows, order: seq<nat>, j: nat, k: nat)
    requires forall i | i in order :: i in rows && rows[i].day.Some?
    requires InOrder(rows, order) && j < k < |order|
    ensures order[j] != order[k] && Before(order[j], rows[order[j]], order[k], rows[order[k]])
  {
    var rest := order[1..];
    assert order[k] == rest[k - 1] && rest[k - 1] in rest;
    if j > 0 {
      InOrderAt(rows, rest, j - 1, k - 1);
      assert order[j] == rest[j - 1];
    }
  }

  /** The order has no duplicates and is the one ORDER BY asks for. */
  lemma OrderedIsSorted(rows: Rows, ids: set<nat>, j: nat, k: nat)
    requires forall i | i in ids :: i in rows && rows[i].day.Some?
    requires j < k < |Ordered(rows, ids)|
    ensures var order := Ordered(rows, ids);
      && order[j] != order[k] && order[j] in ids && order[k] in ids
      && Before(order[j], rows[order[j]], order[k], rows[order[k]]) && MayPrecede(rows[order[j]], rows[order[k]])
  {
    assert Ordered(rows, ids)[j] in Ordered(rows, ids) && Ordered(rows, ids)[k] in Ordered(rows, ids);
    OrderedInOrder(rows, ids);
    InOrderAt(rows, Ordered(rows, ids), j, k);
  }

  /** The three comparisons of ORDER BY: the later day first, then the featured
      ones, then the lower position. */
  predicate MayPrecede(l: Launch, m: Launch)
    requires l.day.Some? && m.day.Some?
  {
    && l.day.value >= m.day.value
    && (l.day == m.day ==> m.featured ==> l.featured)
    && (l.day == m.day && l.featured == m.featured ==>
          m.position.Some? ==> l.position.Some? && l.position.value <= m.position.value)
  }

  function Items(rows: Rows, order: seq<nat>): seq<Item>
    requires forall i | i in order :: i in rows && rows[i].day.Some?
  {
    seq(|order|, k requires 0 <= k < |order| => ItemOf(order[k], rows[order[k]]))
  }

  /** `card_items`: the house line, then today's, then yesterday's. */
  function CardItems(rows: Rows, today: int): seq<Item> {
    [House(today)] + Items(rows, Ordered(rows, CardIds(rows, today)))
  }

  /** An item as the reader sees it: name and tagline, the day, what hovers, the
      description if there is one, and the stored logo or else a favicon. */
  predicate Shows(item: Item, id: nat, l: Launch) {
    && item.Product? && item.id == id && l.day == Some(item.day)
    && item.title == l.name + ": " + l.tagline
    && (l.featured ==> item.hover == "featured") && (!l.featured ==> item.hover == l.kicker)
    && (if l.description == "" then item.info.None? else item.info == Some(l.description))
    && (if l.logo.None? || l.logo.value == "" then item.icon == Favicon(l.url) else item.icon == StoredLogo(l.logo.value))
  }

  lemma CardAt(rows: Rows, today: int, k: nat)
    requires 1 <= k < |CardItems(rows, today)|
    ensures |CardItems(rows, today)| == 1 + |Ordered(rows, CardIds(rows, today))|
    ensures var id := Ordered(rows, CardIds(rows, today))[k - 1];
      id in CardIds(rows, today) && CardItems(rows, today)[k] == ItemOf(id, rows[id])
  {
    var order := Ordered(rows, CardIds(rows, today));
    assert order[k - 1] in order;
  }

  /** Every item after the house line is a live or ended product of today or
      yesterday. */
  lemma ShownIsOfTwoDays(rows: Rows, today: int, k: nat)
    requires 1 <= k < |CardItems(rows, today)|
    ensures var item := CardItems(rows, today)[k];
      && item.Product? && item.id in rows && Shows(item, item.id, rows[item.id])
      && (rows[item.id].state == Live || rows[item.id].state == Ended) && today - 1 <= item.day <= today
  {
    CardAt(rows, today, k);
  }

  /** And every such product has an item. */
  lemma OfTwoDaysIsShown(rows: Rows, today: int, id: nat) returns (k: nat)
    requires id in rows && (rows[id].state == Live || rows[id].state == Ended)
    requires rows[id].day == Some(today) || rows[id].day == Some(today - 1)
    ensures 1 <= k < |CardItems(rows, today)|
    ensures CardItems(rows, today)[k].Product? && CardItems(rows, today)[k].id == id
    ensures CardItems(rows, today)[0] == House(today)
  {
    var order := Ordered(rows, CardIds(rows, today));
    assert id in CardIds(rows, today) && id in order;
    var m :| 0 <= m < |order| && order[m] == id;
    k := m + 1;
    CardAt(rows, today, k);
  }

  /** Two products of the card, the later day first, then as ORDER BY has them. */
  predicate InPlace(rows: Rows, x: Item, y: Item) {
    && x.Product? && y.Product? && x.id != y.id && x.id in rows && y.id in rows && x.day >= y.day
    && rows[x.id].day == Some(x.day) && rows[y.id].day == Some(y.day) && MayPrecede(rows[x.id], rows[y.id])
  }

  lemma ItemsInPlace(rows: Rows, a: nat, b: nat)
    requires a in rows && b in rows && a != b && rows[a].day.Some? && rows[b].day.Some? && MayPrecede(rows[a], rows[b])
    ensures InPlace(rows, ItemOf(a, rows[a]), ItemOf(b, rows[b]))
  {}

  /** Today's products come first, the featured ones of a day first, then by
      position, each once. */
  lemma CardShowsInOrder(rows: Rows, today: int, j: nat, k: nat)
    requires 1 <= j < k < |CardItems(rows, today)|
    ensures InPlace(rows, CardItems(rows, today)[j], CardItems(rows, today)[k])
  {
    var ids := CardIds(rows, today);
    CardAt(rows, today, j);
    CardAt(rows, today, k);
    OrderedIsSorted(rows, ids, j - 1, k - 1);
    ItemsInPlace(rows, Ordered(rows, ids)[j - 1], Ordered(rows, ids)[k - 1]);
  }
}
