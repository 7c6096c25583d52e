/** The signatures table: one row per signature, the named scopes over
    it (app/models/signature.rb:109-113) and the queries by e-mail and
    petition that the uniqueness rule and the reminder use. */
module Records {
  import opened Options

  /** The attributes of one signature that the model reads or writes.
      Times are epoch seconds, person_born_at a day number (days since
      1970-01-01). Nullable columns are Options; a nullable boolean stays an
      Option because SQL's `= TRUE` and `= FALSE` both skip NULL. */
  datatype Row = Row(
    id: int,
    petitionId: int,
    personName: Option<string>,
    personStreet: Option<string>,
    personStreetNumberSuffix: Option<string>,
    personStreetNumber: Option<string>,
    personFunction: Option<string>,
    personEmail: Option<string>,
    personCity: Option<string>,
    personBirthCity: Option<string>,
    personBornAt: Option<int>,
    signedAt: Option<int>,
    confirmedAt: Option<int>,
    confirmed: bool,
    uniqueKey: Option<string>,
    special: Option<bool>,
    subscribe: Option<bool>,
    visible: Option<bool>,
    createdAt: Option<int>,
    updatedAt: Option<int>,
    remindersSent: Option<int>,
    lastReminderSentAt: Option<int>)

  /** The rows of a query that satisfy its condition, each as often as it
      occurs in the table (SQL gives no order without ORDER BY). */
  function Where(rows: seq<Row>, cond: Row -> bool): (r: seq<Row>)
    ensures forall x :: x in r <==> x in rows && cond(x)
    ensures forall x :: multiset(r)[x] == if cond(x) then multiset(rows)[x] else 0
    ensures |r| <= |rows|
  {
    if rows == [] then []
    else
      var rest := Where(rows[1..], cond);
      assert rows == [rows[0]] + rows[1..];
      if cond(rows[0]) then [rows[0]] + rest else rest
  }

  /** scope :confirmed, where(confirmed: true). */
  function Confirmed(rows: seq<Row>): (r: seq<Row>)
    ensures forall x :: x in r <==> x in rows && x.confirmed
  {
    Where(rows, (x: Row) => x.confirmed)
  }

  /** scope :hidden, where(visible: false): a NULL visible is not hidden. */
  function Hidden(rows: seq<Row>): (r: seq<Row>)
    ensures forall x :: x in r <==> x in rows && x.visible == Some(false)
  {
    Where(rows, (x: Row) => x.visible == Some(false))
  }

  /** scope :subscribe, where(confirmed: true, subscribe: true). */
  function Subscribed(rows: seq<Row>): (r: seq<Row>)
    ensures forall x :: x in r <==> x in rows && x.confirmed && x.subscribe == Some(true)
  {
    Where(rows, (x: Row) => x.confirmed && x.subscribe == Some(true))
  }

  /** scope :special, where(special: true, confirmed: true). */
  function Special(rows: seq<Row>): (r: seq<Row>)
    ensures forall x :: x in r <==> x in rows && x.confirmed && x.special == Some(true)
  {
    Where(rows, (x: Row) => x.special == Some(true) && x.confirmed)
  }

  /** scope :visible, where(visible: true, confirmed: true). */
  function Visible(rows: seq<Row>): (r: seq<Row>)
    ensures forall x :: x in r <==> x in rows && x.confirmed && x.visible == Some(true)
  {
    Where(rows, (x: Row) => x.visible == Some(true) && x.confirmed)
  }

  /** The subscribed, special and visible scopes only ever list confirmed
      signatures; a hidden signature is never visible, and a signature whose
      visible column is NULL is in neither scope. */
  lemma ScopesWithinConfirmed(rows: seq<Row>, x: Row)
    ensures x in Subscribed(rows) || x in Special(rows) || x in Visible(rows) ==> x in Confirmed(rows)
    ensures !(x in Hidden(rows) && x in Visible(rows))
    ensures x.visible.None? ==> x !in Hidden(rows) && x !in Visible(rows)
    ensures multiset(Visible(rows))[x] <= multiset(Confirmed(rows))[x]
  {
    assert multiset(Visible(rows))[x] == if x.visible == Some(true) && x.confirmed then multiset(rows)[x] else 0;
    assert multiset(Confirmed(rows))[x] == if x.confirmed then multiset(rows)[x] else 0;
  }

  /** Signature.find_by_person_email_and_petition_id finds a row: some
      stored row has that e-mail and that petition, and an empty table
      has none. */
  function ExistsByEmailAndPetition(rows: map<int, Row>, email: Option<string>, petitionId: int): (b: bool)
    ensures forall k :: k in rows && rows[k].personEmail == email && rows[k].petitionId == petitionId ==> b
    ensures rows == map[] ==> !b
  {
    exists k :: k in rows && rows[k].personEmail == email && rows[k].petitionId == petitionId
  }

  /** The same query restricted to rows other than the given id. */
  predicate ExistsOtherByEmailAndPetition(rows: map<int, Row>, email: Option<string>, petitionId: int, self: int)
  {
    exists k :: k in rows && k != self && rows[k].personEmail == email && rows[k].petitionId == petitionId
  }

  /** The whole-table lookup finds a row exactly when the lookup that
      leaves out one id does, or the row at that id matches itself. */
  lemma ExistsSplitsAtSelf(rows: map<int, Row>, email: Option<string>, petitionId: int, self: int)
    ensures ExistsByEmailAndPetition(rows, email, petitionId)
        <==> ExistsOtherByEmailAndPetition(rows, email, petitionId, self)
             || (self in rows && rows[self].personEmail == email && rows[self].petitionId == petitionId)
  {
    if ExistsByEmailAndPetition(rows, email, petitionId) {
      var k :| k in rows && rows[k].personEmail == email && rows[k].petitionId == petitionId;
      if k != self {
        assert ExistsOtherByEmailAndPetition(rows, email, petitionId, self);
      }
    }
  }
}
