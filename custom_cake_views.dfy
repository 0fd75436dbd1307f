/**
 * Custom-cake requests (custom_cake/views.py): who may see, edit and delete a
 * request, how the list is chosen and ordered, and who owns a new request.
 * The table is a map from primary key to row; the form's own field
 * validation is an input flag.
 */
module CustomCakeViews {
  import opened Wrappers
  import opened SessionState

  /** A custom-cake request; only what the views read is kept (its key and owner), the rest is the form's. */
  datatype Cake = Cake(id: int, userId: Option<int>, details: string)

  type Cakes = map<int, Cake>

  /** `_can_access`: staff, or the user the cake belongs to. */
  predicate CanAccess(user: User, cake: Cake) {
    user.isStaff || cake.userId == Some(user.id)
  }

  /** Staff reach every cake; anyone else only the cakes recorded as theirs, so an ownerless cake is staff-only. */
  lemma CanAccessSpec(user: User, cake: Cake)
    ensures user.isStaff ==> CanAccess(user, cake)
    ensures !user.isStaff ==> (CanAccess(user, cake) <==> cake.userId == Some(user.id))
    ensures cake.userId.None? ==> (CanAccess(user, cake) <==> user.isStaff)
  {
  }

  // ---------------------------------------------------------------------------
  // The list: all cakes for staff, one's own otherwise, newest id first
  // ---------------------------------------------------------------------------

  /** `filter(user=request.user)` */
  function OwnedBy(rows: seq<Cake>, uid: int): (r: seq<Cake>)
    ensures forall c :: c in r <==> c in rows && c.userId == Some(uid)
    ensures |r| <= |rows|
  {
    if rows == [] then []
    else (if rows[0].userId == Some(uid) then [rows[0]] else []) + OwnedBy(rows[1..], uid)
  }

  /** The owned rows keep each of the user's rows as often as the table has it, and no other row. */
  lemma {:induction false} OwnedByCount(rows: seq<Cake>, uid: int, c: Cake)
    ensures multiset(OwnedBy(rows, uid))[c] == if c.userId == Some(uid) then multiset(rows)[c] else 0
  {
    if rows != [] {
      OwnedByCount(rows[1..], uid, c);
      assert rows == [rows[0]] + rows[1..];
    }
  }

  predicate NewestFirst(cs: seq<Cake>) {
    forall i, j :: 0 <= i < j < |cs| ==> cs[i].id >= cs[j].id
  }

  /** Puts `c` in front of the first cake with an id not above its own. */
  function InsertById(c: Cake, sorted: seq<Cake>): seq<Cake> {
    if sorted == [] || c.id >= sorted[0].id then [c] + sorted
    else [sorted[0]] + InsertById(c, sorted[1..])
  }

  /** `order_by('-id')` */
  function ByIdDescending(cs: seq<Cake>): seq<Cake> {
    if cs == [] then [] else InsertById(cs[0], ByIdDescending(cs[1..]))
  }

  /** A cake with an id at least every id of a newest-first list can go in front. */
  lemma ConsNewestFirst(h: Cake, t: seq<Cake>)
    requires NewestFirst(t)
    requires forall x <- t :: x.id <= h.id
    ensures NewestFirst([h] + t)
  {
    forall i, j | 0 <= i < j < |[h] + t| ensures ([h] + t)[i].id >= ([h] + t)[j].id {
      if i == 0 {
        assert ([h] + t)[j] == t[j - 1] && t[j - 1] in t;
      } else {
        assert ([h] + t)[i] == t[i - 1] && ([h] + t)[j] == t[j - 1];
      }
    }
  }

  lemma {:induction false} InsertByIdPerm(c: Cake, sorted: seq<Cake>)
    ensures multiset(InsertById(c, sorted)) == multiset(sorted) + multiset{c}
  {
    if sorted != [] && c.id < sorted[0].id {
      InsertByIdPerm(c, sorted[1..]);
      assert sorted == [sorted[0]] + sorted[1..];
    }
  }

  lemma {:induction false} InsertByIdSorted(c: Cake, sorted: seq<Cake>)
    requires NewestFirst(sorted)
    ensures NewestFirst(InsertById(c, sorted))
  {
    if sorted != [] && c.id < sorted[0].id {
      var rest := InsertById(c, sorted[1..]);
      assert NewestFirst(sorted[1..]) by {
        forall i, j | 0 <= i < j < |sorted[1..]| ensures sorted[1..][i].id >= sorted[1..][j].id {
          assert sorted[1..][i] == sorted[i + 1] && sorted[1..][j] == sorted[j + 1];
        }
      }
      InsertByIdSorted(c, sorted[1..]);
      InsertByIdPerm(c, sorted[1..]);
      forall x <- rest ensures x.id <= sorted[0].id {
        assert x in multiset(rest);
        if x != c {
          assert x in multiset(sorted[1..]);
          var k :| 0 <= k < |sorted[1..]| && sorted[1..][k] == x;
          assert x == sorted[k + 1];
        }
      }
      ConsNewestFirst(sorted[0], rest);
    } else {
      forall x <- sorted ensures x.id <= c.id {
        var k :| 0 <= k < |sorted| && sorted[k] == x;
        assert sorted[0].id >= x.id;
      }
      ConsNewestFirst(c, sorted);
    }
  }

  /** Ordering by id, descending, rearranges the rows and puts newer ids first. */
  lemma {:induction false} ByIdDescendingSpec(cs: seq<Cake>)
    ensures NewestFirst(ByIdDescending(cs))
    ensures multiset(ByIdDescending(cs)) == multiset(cs)
  {
    if cs != [] {
      ByIdDescendingSpec(cs[1..]);
      InsertByIdSorted(cs[0], ByIdDescending(cs[1..]));
      InsertByIdPerm(cs[0], ByIdDescending(cs[1..]));
      assert cs == [cs[0]] + cs[1..];
    }
  }

  /** `custom_cake_list`: every row for staff, the user's own rows otherwise, newest id first. */
  function CakeList(rows: seq<Cake>, user: User): seq<Cake> {
    ByIdDescending(if user.isStaff then rows else OwnedBy(rows, user.id))
  }

  /** The list holds exactly the rows the user may open, newest first, each as often as in the table. */
  lemma CakeListSpec(rows: seq<Cake>, user: User)
    ensures NewestFirst(CakeList(rows, user))
    ensures forall c :: c in CakeList(rows, user) <==> c in rows && CanAccess(user, c)
    ensures user.isStaff ==> multiset(CakeList(rows, user)) == multiset(rows)
    ensures !user.isStaff ==> multiset(CakeList(rows, user)) == multiset(OwnedBy(rows, user.id))
    ensures forall c :: multiset(CakeList(rows, user))[c] == if CanAccess(user, c) then multiset(rows)[c] else 0
  {
    var shown := if user.isStaff then rows else OwnedBy(rows, user.id);
    ByIdDescendingSpec(shown);
    if !user.isStaff {
      forall c ensures multiset(OwnedBy(rows, user.id))[c] == if c.userId == Some(user.id) then multiset(rows)[c] else 0 {
        OwnedByCount(rows, user.id, c);
      }
    }
    forall c ensures c in CakeList(rows, user) <==> c in shown {
      assert c in CakeList(rows, user) <==> c in multiset(CakeList(rows, user));
      assert c in shown <==> c in multiset(shown);
    }
  }

  // ---------------------------------------------------------------------------
  // Create, detail, edit, delete
  // ---------------------------------------------------------------------------

  /**
   * `custom_cake_create`: a valid POST stores the submitted cake under the
   * fresh key the database assigns, owned by the requesting user.
   */
  function Create(cakes: Cakes, user: User, isPost: bool, formValid: bool, newId: int, submitted: Cake): (r: (Response, Cakes))
    requires newId !in cakes
    ensures r.0 == Done
    ensures !(isPost && formValid) ==> r.1 == cakes
    ensures isPost && formValid ==>
      && r.1.Keys == cakes.Keys + {newId}
      && r.1[newId].id == newId && r.1[newId].userId == Some(user.id)
      && forall k :: k in cakes ==> r.1[k] == cakes[k]
  {
    if isPost && formValid then (Done, cakes[newId := submitted.(id := newId, userId := Some(user.id))])
    else (Done, cakes)
  }

  /** The creator, and staff, can reach the new cake; no other cake changes. */
  lemma CreateOwned(cakes: Cakes, user: User, newId: int, submitted: Cake, other: User)
    requires newId !in cakes
    ensures var after := Create(cakes, user, true, true, newId, submitted).1;
      && newId in after && after[newId].userId == Some(user.id)
      && CanAccess(user, after[newId])
      && (CanAccess(other, after[newId]) <==> other.isStaff || other.id == user.id)
      && (forall k :: k in cakes ==> k in after && after[k] == cakes[k])
  {
  }

  /** `custom_cake_detail` */
  function Detail(cakes: Cakes, pk: int, user: User): (r: Response)
    ensures r == NotFound <==> pk !in cakes
    ensures r == Forbidden <==> pk in cakes && !CanAccess(user, cakes[pk])
    ensures r == Done <==> pk in cakes && CanAccess(user, cakes[pk])
  {
    if pk !in cakes then NotFound
    else if !CanAccess(user, cakes[pk]) then Forbidden
    else Done
  }

  /**
   * `custom_cake_edit`: after the gate, a valid POST saves the edited fields.
   * The form does not include the owner, so the owner stays.
   */
  function Edit(cakes: Cakes, pk: int, user: User, isPost: bool, formValid: bool, edited: Cake): (r: (Response, Cakes)) {
    if pk !in cakes then (NotFound, cakes)
    else if !CanAccess(user, cakes[pk]) then (Forbidden, cakes)
    else if isPost && formValid then (Done, cakes[pk := edited.(id := pk, userId := cakes[pk].userId)])
    else (Done, cakes)
  }

  /** `custom_cake_delete`: after the gate, the cake is removed only on POST. */
  function Delete(cakes: Cakes, pk: int, user: User, isPost: bool): (r: (Response, Cakes)) {
    if pk !in cakes then (NotFound, cakes)
    else if !CanAccess(user, cakes[pk]) then (Forbidden, cakes)
    else if isPost then (Done, cakes - {pk})
    else (Done, cakes)
  }

  /**
   * Edit and delete answer like the detail page, and leave the table as it was
   * unless the gate let the user through on a POST.
   */
  lemma GatesBeforeChanges(cakes: Cakes, pk: int, user: User, isPost: bool, formValid: bool, edited: Cake)
    ensures Edit(cakes, pk, user, isPost, formValid, edited).0 == Detail(cakes, pk, user)
    ensures Delete(cakes, pk, user, isPost).0 == Detail(cakes, pk, user)
    ensures Edit(cakes, pk, user, isPost, formValid, edited).1 != cakes ==>
      Detail(cakes, pk, user) == Done && isPost && formValid
    ensures Delete(cakes, pk, user, isPost).1 != cakes ==> Detail(cakes, pk, user) == Done && isPost
  {
  }

  /** A permitted POST to delete removes exactly that cake; a GET only asks for confirmation. */
  lemma DeleteOnlyOnPost(cakes: Cakes, pk: int, user: User)
    requires pk in cakes && CanAccess(user, cakes[pk])
    ensures Delete(cakes, pk, user, false).1 == cakes
    ensures var after := Delete(cakes, pk, user, true).1;
      pk !in after && forall k :: k in cakes && k != pk ==> k in after && after[k] == cakes[k]
  {
  }

  /** Editing never moves a cake to another owner, so who may reach each cake is unchanged. */
  lemma EditKeepsAccess(cakes: Cakes, pk: int, user: User, isPost: bool, formValid: bool, edited: Cake, anyone: User)
    ensures var after := Edit(cakes, pk, user, isPost, formValid, edited).1;
      && after.Keys == cakes.Keys
      && forall k :: k in after ==> (CanAccess(anyone, after[k]) <==> CanAccess(anyone, cakes[k]))
  {
  }
}
