/**
 * The desktop client's shared UI helpers: the toast list kept by `ToastManager`, the last-message
 * preview of a conversation row, the contact search filter and the password rule. The DOM
 * elements, CSS animation delays and timer handles are not modelled; the clock is a parameter.
 */
module Components {
  import opened Wrappers
  import Text

  // ---------------------------------------------------------------- toasts

  /** A toast entry: its id, the clock reading and counter value the id was made from, and its content. */
  datatype Toast = Toast(id: string, stamp: nat, serial: nat, message: string, kind: string, duration: int, removing: bool)

  /** `toast-${Date.now()}-${this.counter++}`. */
  function ToastId(stamp: nat, serial: nat): (id: string)
    ensures Text.StartsWith(id, "toast-")
  {
    "toast-" + Text.NatToString(stamp) + "-" + Text.NatToString(serial)
  }

  /** Decimal numerals name their numbers: equal numerals, equal numbers. */
  lemma NumeralInjective(a: nat, b: nat)
    requires Text.NatToString(a) == Text.NatToString(b)
    ensures a == b
  {
    assert Text.DecimalValue(Text.NatToString(a)) == a;
  }

  /** In `x + "-" + y` with a digit string `x`, the first '-' stands right after `x`. */
  lemma FirstDash(x: string, y: string)
    requires Text.AllDigits(x)
    ensures (x + "-" + y)[|x|] == '-'
    ensures forall k :: 0 <= k < |x| ==> (x + "-" + y)[k] != '-'
  {
    assert forall k :: 0 <= k < |x| ==> (x + "-" + y)[k] == x[k];
  }

  /** `x + "-" + y` with digit strings `x`, `x2` determines `x` and `y`. */
  lemma SplitAtDash(x: string, y: string, x2: string, y2: string)
    requires Text.AllDigits(x) && Text.AllDigits(x2)
    requires x + "-" + y == x2 + "-" + y2
    ensures x == x2 && y == y2
  {
    var s := x + "-" + y;
    FirstDash(x, y);
    FirstDash(x2, y2);
    assert |x| == |x2|;
    assert x == s[..|x|] && x2 == (x2 + "-" + y2)[..|x2|];
    assert y == s[|x| + 1..] && y2 == (x2 + "-" + y2)[|x2| + 1..];
  }

  /** Different counter values (or clock readings) always give different ids. */
  lemma ToastIdInjective(stamp: nat, serial: nat, stamp2: nat, serial2: nat)
    ensures ToastId(stamp, serial) == ToastId(stamp2, serial2) ==> stamp == stamp2 && serial == serial2
  {
    if ToastId(stamp, serial) == ToastId(stamp2, serial2) {
      var a, b := Text.NatToString(stamp), Text.NatToString(serial);
      var a2, b2 := Text.NatToString(stamp2), Text.NatToString(serial2);
      assert ToastId(stamp, serial) == "toast-" + (a + "-" + b);
      assert ToastId(stamp2, serial2) == "toast-" + (a2 + "-" + b2);
      assert a + "-" + b == a2 + "-" + b2;
      SplitAtDash(a, b, a2, b2);
      NumeralInjective(stamp, stamp2);
      NumeralInjective(serial, serial2);
    }
  }

  /** The index of the first toast with the id (`findIndex`), or `None` for -1. */
  function FindToast(toasts: seq<Toast>, id: string): (k: Option<nat>)
    ensures k.Some? ==> k.value < |toasts| && toasts[k.value].id == id && forall j :: 0 <= j < k.value ==> toasts[j].id != id
    ensures k.None? ==> forall j :: 0 <= j < |toasts| ==> toasts[j].id != id
  {
    if toasts == [] then None
    else if toasts[0].id == id then Some(0)
    else match FindToast(toasts[1..], id)
      case None => None
      case Some(k) => Some(k + 1)
  }

  /**
   * Every toast carries the id made from its own clock reading and counter value, the counter
   * values increase along the list and stay below `counter`, and none is being removed.
   */
  predicate WellFormed(toasts: seq<Toast>, counter: nat)
  {
    (forall i :: 0 <= i < |toasts| ==>
      toasts[i].id == ToastId(toasts[i].stamp, toasts[i].serial) && toasts[i].serial < counter && !toasts[i].removing) &&
    (forall i, j :: 0 <= i < j < |toasts| ==> toasts[i].serial < toasts[j].serial)
  }

  /** Removing one toast from a well-formed list keeps it well formed and leaves no toast with that id. */
  lemma SpliceWellFormed(toasts: seq<Toast>, counter: nat, k: nat)
    requires WellFormed(toasts, counter) && k < |toasts|
    ensures WellFormed(toasts[..k] + toasts[k + 1..], counter)
    ensures forall t :: t in toasts[..k] + toasts[k + 1..] ==> t.id != toasts[k].id
  {
    var r := toasts[..k] + toasts[k + 1..];
    assert forall j :: 0 <= j < |r| ==> r[j] == if j < k then toasts[j] else toasts[j + 1];
    forall t | t in r
      ensures t.id != toasts[k].id
    {
      var j :| 0 <= j < |r| && r[j] == t;
      var m := if j < k then j else j + 1;
      ToastIdInjective(toasts[m].stamp, toasts[m].serial, toasts[k].stamp, toasts[k].serial);
    }
  }

  class ToastManager {
    var toasts: seq<Toast>
    var counter: nat

    /** The list is well formed for the current counter. */
    predicate Valid()
      reads this
    {
      WellFormed(toasts, counter)
    }

    constructor()
      ensures toasts == [] && counter == 0 && Valid()
    {
      toasts, counter := [], 0;
    }

    /** Under `Valid`, no two listed toasts share an id. */
    lemma IdsDistinct()
      requires Valid()
      ensures forall i, j :: 0 <= i < j < |toasts| ==> toasts[i].id != toasts[j].id
    {
      forall i, j | 0 <= i < j < |toasts|
        ensures toasts[i].id != toasts[j].id
      {
        ToastIdInjective(toasts[i].stamp, toasts[i].serial, toasts[j].stamp, toasts[j].serial);
      }
    }

    /** `show`: appends a toast under an id no listed toast has, and advances the counter. */
    method Show(message: string, kind: string, duration: int, now: nat) returns (id: string)
      requires Valid()
      modifies this
      ensures id == ToastId(now, old(counter)) && counter == old(counter) + 1
      ensures toasts == old(toasts) + [Toast(id, now, old(counter), message, kind, duration, false)]
      ensures forall i :: 0 <= i < |old(toasts)| ==> old(toasts)[i].id != id
      ensures Valid()
    {
      id := ToastId(now, counter);
      forall i | 0 <= i < |toasts|
        ensures toasts[i].id != id
      {
        ToastIdInjective(toasts[i].stamp, toasts[i].serial, now, counter);
      }
      toasts := toasts + [Toast(id, now, counter, message, kind, duration, false)];
      counter := counter + 1;
    }

    /**
     * `remove`: an unknown id, or a toast already being removed, changes nothing; otherwise the
     * first toast with the id leaves the list and the others keep their order.
     */
    method Remove(id: string)
      modifies this
      ensures match FindToast(old(toasts), id)
        case None => toasts == old(toasts)
        case Some(k) => toasts == (if old(toasts)[k].removing then old(toasts) else old(toasts)[..k] + old(toasts)[k + 1..])
      ensures counter == old(counter)
      ensures old(Valid()) ==> Valid() && forall t :: t in toasts ==> t.id != id
    {
      var k := FindToast(toasts, id);
      if k.None? {
        return;
      }
      var i := k.value;
      if toasts[i].removing {
        return;
      }
      if Valid() {
        SpliceWellFormed(toasts, counter, i);
      }
      toasts := toasts[..i] + toasts[i + 1..];
    }

    /** `clearAll`: the list is empty. */
    method ClearAll()
      modifies this
      ensures toasts == [] && counter == old(counter)
      ensures Valid()
    {
      toasts := [];
    }

    /** `getCount`. */
    function Count(): (n: nat)
      reads this
      ensures n == |toasts|
    {
      |toasts|
    }
  }

  // ---------------------------------------------------------------- conversation rows

  /** A message shortened to 30 characters plus "..." when longer. */
  function Shortened(text: string): (r: string)
    ensures |text| <= 30 ==> r == text
    ensures |text| > 30 ==> |r| == 33 && Text.StartsWith(text, r[..30]) && Text.EndsWith(r, "...")
  {
    if |text| > 30 then text[..30] + "..." else text
  }

  /**
   * `getLastMessagePreview`: a prompt when there is no last message; otherwise the shortened
   * text, after "You: " when the sender id equals the current user's id. A missing sender id
   * (`None`) equals a missing current user, as `undefined === undefined` does.
   */
  function LastMessagePreview(lastMessage: string, lastMessageSenderId: Option<string>, currentUserId: Option<string>): (r: string)
    ensures lastMessage == "" ==> r == "Start a conversation"
    ensures lastMessage != "" && lastMessageSenderId == currentUserId ==> r == "You: " + Shortened(lastMessage)
    ensures lastMessage != "" && lastMessageSenderId != currentUserId ==> r == Shortened(lastMessage)
    ensures lastMessage != "" ==> |r| <= 38 && Text.EndsWith(r, Shortened(lastMessage))
  {
    if lastMessage == "" then "Start a conversation"
    else if lastMessageSenderId == currentUserId then "You: " + Shortened(lastMessage)
    else Shortened(lastMessage)
  }

  // ---------------------------------------------------------------- search and forms

  /** The fields the contact filter reads; a missing field is "". */
  datatype SearchContact = SearchContact(userId: string, firstName: string, lastName: string, name: string)

  /** A contact with an id whose first, last or display name contains the (lower-cased) query. */
  predicate Hit(c: SearchContact, query: string)
  {
    c.userId != "" &&
    (Text.Contains(Text.ToLower(c.firstName), query) || Text.Contains(Text.ToLower(c.lastName), query) ||
     Text.Contains(Text.ToLower(c.name), query))
  }

  /** The `filter` of `filterContacts`, in list order. */
  function Hits(contacts: seq<SearchContact>, query: string): (r: seq<SearchContact>)
    ensures |r| <= |contacts|
  {
    if contacts == [] then []
    else
      var last := contacts[|contacts| - 1];
      Hits(contacts[..|contacts| - 1], query) + (if Hit(last, query) then [last] else [])
  }

  /** The filter keeps exactly the contacts that hit. */
  lemma {:induction false} HitsMembers(contacts: seq<SearchContact>, query: string)
    ensures forall c :: c in Hits(contacts, query) <==> c in contacts && Hit(c, query)
  {
    if contacts != [] {
      var init, last := contacts[..|contacts| - 1], contacts[|contacts| - 1];
      HitsMembers(init, query);
      assert contacts == init + [last];
    }
  }

  /** When every contact hits, the filter returns the whole list in order. */
  lemma {:induction false} HitsAll(contacts: seq<SearchContact>, query: string)
    requires forall i :: 0 <= i < |contacts| ==> Hit(contacts[i], query)
    ensures Hits(contacts, query) == contacts
  {
    if contacts != [] {
      var init := contacts[..|contacts| - 1];
      assert forall i :: 0 <= i < |init| ==> init[i] == contacts[i];
      HitsAll(init, query);
      assert contacts == init + [contacts[|contacts| - 1]];
    }
  }

  /** `filterContacts`: a blank query returns the list; otherwise the contacts hit by the lower-cased (untrimmed) query. */
  function FilterContacts(contacts: seq<SearchContact>, searchQuery: string): (r: seq<SearchContact>)
    ensures Text.Blank(searchQuery) ==> r == contacts
    ensures !Text.Blank(searchQuery) ==> forall c :: c in r <==> c in contacts && Hit(c, Text.ToLower(searchQuery))
  {
    if Text.Blank(searchQuery) then contacts
    else
      HitsMembers(contacts, Text.ToLower(searchQuery));
      Hits(contacts, Text.ToLower(searchQuery))
  }

  /** `validatePassword`: a non-empty password of at least 6 characters. */
  function ValidatePassword(password: string): (ok: bool)
    ensures ok <==> |password| >= 6
  {
    password != "" && |password| >= 6
  }
}
