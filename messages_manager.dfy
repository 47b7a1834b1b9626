/** The contact-messages admin page: the unread count and badges, the per-message controls, and
    marking a message read. */
module MessagesManager {
  import opened Wrappers
  import Seqs
  import ContactForm

  /** A row of `contact_messages`; `createdAt` is the creation instant as a number. */
  datatype ContactMessage = ContactMessage(
    id: string,
    name: string,
    email: string,
    message: string,
    status: Option<string>,
    createdAt: Option<int>)

  predicate IsUnread(m: ContactMessage)
  {
    m.status == Some("unread")
  }

  /** `messages?.filter(m => m.status === "unread").length || 0`. */
  function UnreadCount(messages: Option<seq<ContactMessage>>): (n: nat)
    ensures messages.None? ==> n == 0
    ensures messages.Some? ==> n == |Seqs.Filter(messages.value, IsUnread)|
    ensures messages.Some? ==> (n == 0 <==> forall m :: m in messages.value ==> !IsUnread(m))
  {
    match messages
    case None => 0
    case Some(rows) => Seqs.Count(rows, IsUnread)
  }

  /** The header badge appears exactly when something is unread. */
  function ShowUnreadBadge(messages: Option<seq<ContactMessage>>): (r: bool)
    ensures r <==> messages.Some? && exists m :: m in messages.value && IsUnread(m)
  {
    UnreadCount(messages) > 0
  }

  /** What one message's card shows besides its text. */
  datatype CardControls = CardControls(highlighted: bool, newBadge: bool, markReadButton: bool)

  /** The primary border, the "New" badge and the Mark Read button all belong to unread messages only. */
  function Controls(m: ContactMessage): (c: CardControls)
    ensures c.highlighted <==> IsUnread(m)
    ensures c.newBadge <==> IsUnread(m)
    ensures c.markReadButton <==> IsUnread(m)
  {
    var unread := m.status == Some("unread");
    CardControls(unread, unread, unread)
  }

  /** "No messages yet" shows for a loaded, empty list, and not while there is no data at all. */
  function ShowEmptyState(messages: Option<seq<ContactMessage>>): (r: bool)
    ensures r <==> messages == Some([])
  {
    messages.Some? && |messages.value| == 0
  }

  /** Newest first: no message is listed after one that is older. A message without a creation time
      sorts first, as a descending order puts missing values first. */
  predicate NewestFirst(rows: seq<ContactMessage>)
  {
    forall i, j :: 0 <= i < j < |rows| ==>
      rows[i].createdAt.None? || (rows[j].createdAt.Some? && rows[i].createdAt.value >= rows[j].createdAt.value)
  }

  /** What the page lists for `table`: every message, each as often as in the table, newest first. */
  predicate Listed(table: seq<ContactMessage>, shown: seq<ContactMessage>)
  {
    multiset(shown) == multiset(table) && NewestFirst(shown)
  }

  /** The first message listed is the newest: when it has a creation time, every message of the table
      has one, and none is later. */
  lemma NewestListedFirst(table: seq<ContactMessage>, shown: seq<ContactMessage>)
    requires Listed(table, shown) && shown != [] && shown[0].createdAt.Some?
    ensures forall m :: m in table ==> m.createdAt.Some? && m.createdAt.value <= shown[0].createdAt.value
  {
    forall m | m in table
      ensures m.createdAt.Some? && m.createdAt.value <= shown[0].createdAt.value
    {
      assert m in multiset(shown);
      var j :| 0 <= j < |shown| && shown[j] == m;
    }
  }

  /** The table after `update({ status: "read" }).eq("id", id)`. */
  function MarkedRead(rows: seq<ContactMessage>, id: string): (r: seq<ContactMessage>)
    ensures |r| == |rows|
    ensures forall i :: 0 <= i < |rows| ==> r[i] == if rows[i].id == id then rows[i].(status := Some("read")) else rows[i]
  {
    seq(|rows|, i requires 0 <= i < |rows| => if rows[i].id == id then rows[i].(status := Some("read")) else rows[i])
  }

  /** The update in place, row by row. */
  method MarkRead(rows: array<ContactMessage>, id: string)
    modifies rows
    ensures rows[..] == MarkedRead(old(rows[..]), id)
  {
    var i := 0;
    while i < rows.Length
      invariant 0 <= i <= rows.Length
      invariant forall k :: 0 <= k < i ==>
        rows[k] == if old(rows[k]).id == id then old(rows[k]).(status := Some("read")) else old(rows[k])
      invariant forall k :: i <= k < rows.Length ==> rows[k] == old(rows[k])
    {
      if rows[i].id == id {
        rows[i] := rows[i].(status := Some("read"));
      }
      i := i + 1;
    }
  }

  /** Marking read keeps a newest-first listing newest first: creation times are untouched. */
  lemma MarkReadKeepsListing(table: seq<ContactMessage>, shown: seq<ContactMessage>, id: string)
    requires Listed(table, shown)
    ensures Listed(MarkedRead(table, id), MarkedRead(shown, id))
  {
    MarkedReadMultiset(table, shown, id);
  }

  /** Marking read maps equal multisets of rows to equal multisets. */
  lemma {:induction false} MarkedReadMultiset(a: seq<ContactMessage>, b: seq<ContactMessage>, id: string)
    requires multiset(a) == multiset(b)
    ensures multiset(MarkedRead(a, id)) == multiset(MarkedRead(b, id))
    decreases |a|
  {
    if a != [] {
      var x := a[0];
      var j := Seqs.MatchFirst(a, b);
      var b' := b[..j] + b[j + 1..];
      assert a == [x] + a[1..];
      assert b == b[..j] + ([x] + b[j + 1..]);
      MarkedReadMultiset(a[1..], b', id);
      MarkedReadAppend([x], a[1..], id);
      MarkedReadAppend(b[..j], [x] + b[j + 1..], id);
      MarkedReadAppend([x], b[j + 1..], id);
      MarkedReadAppend(b[..j], b[j + 1..], id);
    }
  }

  lemma MarkedReadAppend(a: seq<ContactMessage>, b: seq<ContactMessage>, id: string)
    ensures MarkedRead(a + b, id) == MarkedRead(a, id) + MarkedRead(b, id)
  {
  }

  /** Marking read touches only the status of the rows with that id: every other column, and every
      other row, is unchanged, and the order is kept. */
  lemma MarkReadOnlyThatRow(rows: seq<ContactMessage>, id: string, i: int)
    requires 0 <= i < |rows|
    ensures var r := MarkedRead(rows, id)[i];
      r.id == rows[i].id && r.name == rows[i].name && r.email == rows[i].email &&
      r.message == rows[i].message && r.createdAt == rows[i].createdAt &&
      (rows[i].id == id ==> r.status == Some("read")) && (rows[i].id != id ==> r == rows[i])
  {
  }

  /** Marking a message read removes exactly the unread rows with its id from the count. */
  lemma {:induction false} MarkReadCount(rows: seq<ContactMessage>, id: string)
    ensures |Seqs.Filter(MarkedRead(rows, id), IsUnread)| ==
            |Seqs.Filter(rows, IsUnread)| - |Seqs.Filter(rows, (m: ContactMessage) => IsUnread(m) && m.id == id)|
  {
    if rows != [] {
      assert MarkedRead(rows, id)[1..] == MarkedRead(rows[1..], id);
      MarkReadCount(rows[1..], id);
    }
  }

  /** With distinct ids, marking an unread message read lowers the unread count by exactly one, and
      marking any other message changes nothing in the count. */
  lemma MarkOneRead(rows: seq<ContactMessage>, i: int)
    requires 0 <= i < |rows|
    requires forall a, b :: 0 <= a < b < |rows| ==> rows[a].id != rows[b].id
    ensures UnreadCount(Some(MarkedRead(rows, rows[i].id))) ==
            if IsUnread(rows[i]) then UnreadCount(Some(rows)) - 1 else UnreadCount(Some(rows))
  {
    var id := rows[i].id;
    MarkReadCount(rows, id);
    SameIdUnread(rows, i);
  }

  /** The unread rows carrying the id of row `i`, when ids are distinct: row `i` alone, if it is unread. */
  lemma {:induction false} SameIdUnread(rows: seq<ContactMessage>, i: int)
    requires 0 <= i < |rows|
    requires forall a, b :: 0 <= a < b < |rows| ==> rows[a].id != rows[b].id
    ensures |Seqs.Filter(rows, (m: ContactMessage) => IsUnread(m) && m.id == rows[i].id)| == if IsUnread(rows[i]) then 1 else 0
  {
    var id := rows[i].id;
    var keep := (m: ContactMessage) => IsUnread(m) && m.id == id;
    assert rows == rows[..i] + [rows[i]] + rows[i + 1..];
    Seqs.FilterAppend(rows[..i] + [rows[i]], rows[i + 1..], keep);
    Seqs.FilterAppend(rows[..i], [rows[i]], keep);
    assert forall m :: m in rows[..i] ==> m.id != id;
    assert forall m :: m in rows[i + 1..] ==> m.id != id;
    NoneKept(rows[..i], keep);
    NoneKept(rows[i + 1..], keep);
  }

  lemma NoneKept(s: seq<ContactMessage>, keep: ContactMessage -> bool)
    requires forall m :: m in s ==> !keep(m)
    ensures Seqs.Filter(s, keep) == []
  {
    assert Seqs.Count(s, keep) == 0;
  }

  /** A message stored by the contact form arrives unread: it raises the unread count by one. */
  lemma ContactSubmissionIsUnread(rows: seq<ContactMessage>, sent: ContactForm.ContactInsert, id: string, createdAt: int)
    requires sent.status == "unread"
    ensures var row := ContactMessage(id, sent.name, sent.email, sent.message, Some(sent.status), Some(createdAt));
      UnreadCount(Some(rows + [row])) == UnreadCount(Some(rows)) + 1
  {
    var row := ContactMessage(id, sent.name, sent.email, sent.message, Some(sent.status), Some(createdAt));
    Seqs.FilterAppend(rows, [row], IsUnread);
  }
}
