/**
 * The dashboard's client-side logic (`DashboardPage.jsx`): the relative age
 * of a notification, the unread badge, the local effect of marking
 * notifications read, and the colours given to the active users.
 */
module Dashboard {
  import opened Wrappers
  import opened JsText
  import N = Notifications
  import Accounts

  // ---------------------------------------------------------------------------
  // Relative dates
  // ---------------------------------------------------------------------------

  const MinuteMs := 60000
  const HourMs := 3600000
  const DayMs := 86400000

  /** The age of a notification as the dashboard shows it. */
  datatype Age = JustNow | Minutes(n: nat) | Hours(n: nat) | Days(n: nat) | Absolute

  /**
   * `formatarDataRelativa`, given `diffMs`, the clock now minus the creation
   * time (negative when the clock is behind). `Math.floor` of a division by a
   * positive constant is Dafny's `/`. Each unit is chosen by the interval the
   * difference lies in, and the count is the number of whole units elapsed.
   */
  function RelativeAge(diffMs: int): (a: Age)
    ensures a == JustNow <==> diffMs < MinuteMs
    ensures a.Minutes? <==> MinuteMs <= diffMs < HourMs
    ensures a.Hours? <==> HourMs <= diffMs < DayMs
    ensures a.Days? <==> DayMs <= diffMs < 7 * DayMs
    ensures a == Absolute <==> 7 * DayMs <= diffMs
    ensures a.Minutes? ==> 1 <= a.n < 60 && a.n * MinuteMs <= diffMs < (a.n + 1) * MinuteMs
    ensures a.Hours? ==> 1 <= a.n < 24 && a.n * HourMs <= diffMs < (a.n + 1) * HourMs
    ensures a.Days? ==> 1 <= a.n < 7 && a.n * DayMs <= diffMs < (a.n + 1) * DayMs
  {
    var mins := diffMs / MinuteMs;
    var hours := diffMs / HourMs;
    var days := diffMs / DayMs;
    if mins < 1 then JustNow
    else if mins < 60 then Minutes(mins)
    else if hours < 24 then Hours(hours)
    else if days < 7 then Days(days)
    else Absolute
  }

  /** The coarseness of an age: later units rank higher. */
  function Rank(a: Age): nat {
    match a
    case JustNow => 0
    case Minutes(_) => 1
    case Hours(_) => 2
    case Days(_) => 3
    case Absolute => 4
  }

  /**
   * An older notification never shows a finer unit, and within one unit it
   * never shows a smaller count.
   */
  lemma RelativeAgeMonotone(d1: int, d2: int)
    requires d1 <= d2
    ensures Rank(RelativeAge(d1)) <= Rank(RelativeAge(d2))
    ensures Rank(RelativeAge(d1)) == Rank(RelativeAge(d2)) && Rank(RelativeAge(d1)) in {1, 2, 3} ==>
      RelativeAge(d1).n <= RelativeAge(d2).n
  {
    var a1 := RelativeAge(d1);
    var a2 := RelativeAge(d2);
    if a1.Minutes? && a2.Minutes? {
      assert a1.n * MinuteMs <= d2 < (a2.n + 1) * MinuteMs;
    } else if a1.Hours? && a2.Hours? {
      assert a1.n * HourMs <= d2 < (a2.n + 1) * HourMs;
    } else if a1.Days? && a2.Days? {
      assert a1.n * DayMs <= d2 < (a2.n + 1) * DayMs;
    }
  }

  /** `${n} ${unit}${n > 1 ? "s" : ""}`: the unit takes the plural "s" when the count exceeds one. */
  function Counted(n: nat, unit: string): (s: string)
    ensures |s| == |NatToString(n)| + 1 + |unit| + (if n > 1 then 1 else 0)
    ensures s[..|NatToString(n)|] == NatToString(n)
    ensures s[|NatToString(n)|] == ' '
    ensures s[|NatToString(n)| + 1..|NatToString(n)| + 1 + |unit|] == unit
    ensures (n > 1) <==> s[|s| - 1] == 's' && |s| > |NatToString(n)| + 1 + |unit|
  {
    NatToString(n) + " " + unit + (if n > 1 then "s" else "")
  }

  const JustNowText := "Agora mesmo"
  const Ago := "Há "

  /**
   * The text shown for an age; `localeDate` stands for the date as
   * `toLocaleDateString("pt-BR")` renders it, which is left out.
   */
  function AgeText(a: Age, localeDate: string): (s: string)
    ensures a == JustNow ==> s == JustNowText
    ensures a == Absolute ==> s == localeDate
    ensures a.Minutes? ==> s == Ago + Counted(a.n, "minuto")
    ensures a.Hours? ==> s == Ago + Counted(a.n, "hora")
    ensures a.Days? ==> s == Ago + Counted(a.n, "dia")
  {
    match a
    case JustNow => JustNowText
    case Minutes(n) => Ago + Counted(n, "minuto")
    case Hours(n) => Ago + Counted(n, "hora")
    case Days(n) => Ago + Counted(n, "dia")
    case Absolute => localeDate
  }

  /**
   * The count is written in the text, and distinct counts of the same unit
   * give distinct texts, so the text tells the age back within its unit.
   */
  lemma {:induction false} CountedInjective(m: nat, n: nat, unit: string)
    requires Counted(m, unit) == Counted(n, unit)
    ensures m == n
  {
    var sm := NatToString(m);
    var sn := NatToString(n);
    var s := Counted(m, unit);
    // the count ends at the first space, since digits are not spaces
    assert forall i :: 0 <= i < |sm| ==> s[i] == sm[i] && IsDigit(sm[i]);
    assert forall i :: 0 <= i < |sn| ==> s[i] == sn[i] && IsDigit(sn[i]);
    assert sm == s[..|sm|] == sn;
    NatToStringInjective(m, n);
  }

  // ---------------------------------------------------------------------------
  // The notification list held by the page
  // ---------------------------------------------------------------------------

  /** `notifications.filter((n) => !n.lida).length`. */
  function UnreadCount(ns: seq<N.Notification>): (c: nat)
    ensures c <= |ns|
    ensures c == |N.Unread(ns)|
  {
    |Filter(ns, N.IsUnread)|
  }

  /** The badge is zero exactly when every notification in the list is read. */
  lemma UnreadCountZero(ns: seq<N.Notification>)
    ensures UnreadCount(ns) == 0 <==> forall i :: 0 <= i < |ns| ==> ns[i].lida
  {
    if forall i :: 0 <= i < |ns| ==> ns[i].lida {
      FilterNone(ns, N.IsUnread);
    }
  }

  /** The badge counts each unread notification once, in whatever part of the list it sits. */
  lemma UnreadCountAppend(xs: seq<N.Notification>, ys: seq<N.Notification>)
    ensures UnreadCount(xs + ys) == UnreadCount(xs) + UnreadCount(ys)
  {
    FilterAppend(xs, ys, N.IsUnread);
  }

  /** `prev.map((n) => (n._id === id ? { ...n, lida: true } : n))`, after the server accepted the call. */
  function MarkReadLocal(ns: seq<N.Notification>, id: nat): (r: seq<N.Notification>)
    ensures |r| == |ns|
    ensures forall i :: 0 <= i < |ns| && ns[i].id != id ==> r[i] == ns[i]
    ensures forall i :: 0 <= i < |ns| && ns[i].id == id ==> r[i].lida && r[i].(lida := ns[i].lida) == ns[i]
  {
    Map(ns, (n: N.Notification) => if n.id == id then n.(lida := true) else n)
  }

  /**
   * Marking one notification read lowers the badge by the number of unread
   * notifications carrying that id: by one when ids are unique and it was
   * unread, by nothing when it was already read or is not in the list.
   */
  lemma {:induction false} MarkReadLocalCount(ns: seq<N.Notification>, id: nat)
    ensures UnreadCount(MarkReadLocal(ns, id)) + |Filter(ns, (n: N.Notification) => !n.lida && n.id == id)|
      == UnreadCount(ns)
  {
    var unreadWithId := (n: N.Notification) => !n.lida && n.id == id;
    if ns != [] {
      var r := MarkReadLocal(ns, id);
      MarkReadLocalCount(ns[1..], id);
      assert MarkReadLocal(ns[1..], id) == r[1..];
      assert ns == [ns[0]] + ns[1..];
      assert r == [r[0]] + r[1..];
      UnreadCountAppend([ns[0]], ns[1..]);
      UnreadCountAppend([r[0]], r[1..]);
      FilterAppend([ns[0]], ns[1..], unreadWithId);
    }
  }

  /**
   * The page's update agrees with the server's: applied to the list the
   * server holds, it gives the list the server holds after `marcarComoLida`.
   */
  lemma MarkReadAgrees(st: N.Store, id: nat)
    requires N.Valid(st)
    requires N.MarkRead(st, id).Ok?
    ensures MarkReadLocal(st.items, id) == N.MarkRead(st, id).value.store.items
  {
    N.MarkReadSpec(st, id);
  }

  /** `prev.map((n) => ({ ...n, lida: true }))`. */
  function MarkAllLocal(ns: seq<N.Notification>): (r: seq<N.Notification>)
    ensures |r| == |ns|
    ensures forall i :: 0 <= i < |ns| ==> r[i].lida && r[i].(lida := ns[i].lida) == ns[i]
  {
    Map(ns, (n: N.Notification) => n.(lida := true))
  }

  /** After marking all, the badge is zero, and the list is the one the server holds after `marcarTodasComoLidas`. */
  lemma MarkAllLocalSpec(st: N.Store)
    ensures UnreadCount(MarkAllLocal(st.items)) == 0
    ensures MarkAllLocal(st.items) == N.MarkAll(st).items
  {
    UnreadCountZero(MarkAllLocal(st.items));
  }

  // ---------------------------------------------------------------------------
  // Active users
  // ---------------------------------------------------------------------------

  const AvatarColors := ["bg-green-500", "bg-blue-500", "bg-purple-500", "bg-pink-500",
                         "bg-indigo-500", "bg-yellow-500", "bg-red-500", "bg-teal-500"]

  /** An active user as the page shows it. */
  datatype Shown = Shown(user: Accounts.User, color: string, isCurrentUser: bool)

  /**
   * `users.map((u, index) => ({ ...u, color: avatarColors[index % 8],
   * isCurrentUser: u._id === user?._id }))`; `current` is the logged-in
   * user's id, `None` when nobody is logged in (then `user?._id` is
   * `undefined` and no id equals it).
   */
  function WithColors(users: seq<Accounts.User>, current: Option<nat>): (r: seq<Shown>)
    ensures |r| == |users|
    ensures forall i :: 0 <= i < |users| ==> r[i].user == users[i] && r[i].color in AvatarColors
    ensures forall i :: 0 <= i < |users| ==> (r[i].isCurrentUser <==> current == Some(users[i].id))
  {
    seq(|users|, i requires 0 <= i < |users| => Shown(users[i], AvatarColors[i % |AvatarColors|], current == Some(users[i].id)))
  }

  /**
   * The colours repeat with period eight, and any eight consecutive users
   * have eight different colours.
   */
  lemma ColorsCycle(users: seq<Accounts.User>, current: Option<nat>)
    ensures forall i :: 0 <= i && i + 8 < |users| ==> WithColors(users, current)[i].color == WithColors(users, current)[i + 8].color
    ensures forall i, j :: 0 <= i < j < |users| && j < i + 8 ==> WithColors(users, current)[i].color != WithColors(users, current)[j].color
  {
    var r := WithColors(users, current);
    forall i | 0 <= i && i + 8 < |users|
      ensures r[i].color == r[i + 8].color
    {
      assert (i + 8) % 8 == i % 8;
    }
    forall i, j | 0 <= i < j < |users| && j < i + 8
      ensures r[i].color != r[j].color
    {
      assert i % 8 != j % 8;
    }
  }

  /** With unique ids, at most one shown user is marked as the current one. */
  lemma OneCurrentUser(users: seq<Accounts.User>, current: Option<nat>)
    requires forall i, j :: 0 <= i < j < |users| ==> users[i].id != users[j].id
    ensures forall i, j :: 0 <= i < j < |users| && WithColors(users, current)[i].isCurrentUser ==>
      !WithColors(users, current)[j].isCurrentUser
  {
  }
}
