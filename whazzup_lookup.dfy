/** The WhazzUp widget's lookups over the application's tables: the network
    ids worth showing, the user behind a network id, a user's live PIREP and
    the active airlines' ICAO codes. Every table reaches the model as a
    sequence in the order the query returns it, so "first" is the first
    element. Network ids are compared as strings. */
module WhazzUpLookup {
  import opened Common
  import opened Php
  import opened WhazzUpConfig

  /** A user; active stands for the ACTIVE state, and the two ids are the
      accounts linked through the networks' sign-in. */
  datatype User = User(
    id: int,
    name: string,
    namePrivate: string,
    active: bool,
    vatsimId: Option<string>,
    ivaoId: Option<string>)

  datatype UserField = UserField(id: int, name: string)

  /** A stored value of a custom profile field. */
  datatype FieldValue = FieldValue(userId: int, fieldId: Option<int>, value: Option<string>)

  /** A PIREP; inProgress stands for the IN_PROGRESS state. */
  datatype Pirep = Pirep(id: string, userId: Option<int>, inProgress: bool)

  datatype Airline = Airline(icao: string, active: bool)

  /** The application's tables the widget reads. */
  datatype Directory = Directory(
    users: seq<User>,
    fields: seq<UserField>,
    values: seq<FieldValue>,
    pireps: seq<Pirep>,
    airlines: seq<Airline>)

  /** The id a user has linked for the network. */
  function NativeId(u: User, n: Network): Option<string>
  {
    match n
    case Vatsim => u.vatsimId
    case Ivao => u.ivaoId
  }

  /** The id of the first profile field with the given name. */
  function FieldIdOf(fields: seq<UserField>, fieldName: PhpValue): (r: Option<int>)
    ensures r.None? <==> forall f :: f in fields ==> PStr(f.name) != fieldName
    ensures r.Some? ==> exists i :: (0 <= i < |fields| && fields[i].id == r.value && PStr(fields[i].name) == fieldName
      && forall j :: 0 <= j < i ==> PStr(fields[j].name) != fieldName)
  {
    if fields == [] then None
    else if PStr(fields[0].name) == fieldName then Some(fields[0].id)
    else
      var r := FieldIdOf(fields[1..], fieldName);
      if r.Some? then
        var i :| 0 <= i < |fields[1..]| && fields[1..][i].id == r.value && PStr(fields[1..][i].name) == fieldName
          && forall j :: 0 <= j < i ==> PStr(fields[1..][j].name) != fieldName;
        assert fields[i + 1] == fields[1..][i];
        assert forall j :: 0 <= j < i + 1 ==> PStr(fields[j].name) != fieldName by {
          forall j | 0 <= j < i + 1 ensures PStr(fields[j].name) != fieldName {
            if j > 0 { assert fields[j] == fields[1..][j - 1]; }
          }
        }
        r
      else
        assert forall f :: f in fields ==> f == fields[0] || f in fields[1..];
        r
  }

  /** The ids of the users not in the ACTIVE state. */
  function InactiveIds(users: seq<User>): set<int>
  {
    set u | u in users && !u.active :: u.id
  }

  /** A stored value that counts as a network id: of the chosen field (a
      missing field matches values without one), of a user who is not known
      to be inactive, and not null. */
  predicate CountsAsCustomId(fv: FieldValue, fieldId: Option<int>, inactive: set<int>)
  {
    fv.fieldId == fieldId && fv.userId !in inactive && fv.value.Some?
  }

  function CustomIds(values: seq<FieldValue>, fieldId: Option<int>, inactive: set<int>): (r: seq<string>)
    ensures forall id :: id in r <==>
      exists fv :: fv in values && CountsAsCustomId(fv, fieldId, inactive) && fv.value == Some(id)
    decreases |values|
  {
    if values == [] then []
    else
      var init, fv := DropLast(values), Last(values);
      assert values == init + [fv];
      CustomIds(init, fieldId, inactive) + if CountsAsCustomId(fv, fieldId, inactive) then [fv.value.value] else []
  }

  /** The linked ids of the active users for the network. */
  function NativeIds(users: seq<User>, n: Network): (r: seq<string>)
    ensures forall id :: id in r <==> exists u :: u in users && u.active && NativeId(u, n) == Some(id)
    decreases |users|
  {
    if users == [] then []
    else
      var init, u := DropLast(users), Last(users);
      assert users == init + [u];
      NativeIds(init, n) + if u.active && NativeId(u, n).Some? then [NativeId(u, n).value] else []
  }

  /** The network ids worth showing: the custom-field ids, then the linked
      ids, without repeats; null when there are none. */
  function NetworkUsers(db: Directory, fieldName: PhpValue, n: Network): (r: Option<seq<string>>)
    ensures r.Some? ==> r.value != []
    ensures r.None? <==> (CustomIds(db.values, FieldIdOf(db.fields, fieldName), InactiveIds(db.users)) == []
      && NativeIds(db.users, n) == [])
  {
    var custom := CustomIds(db.values, FieldIdOf(db.fields, fieldName), InactiveIds(db.users));
    var all := custom + NativeIds(db.users, n);
    var unique := UniqueBy(all, Self);
    if unique == [] then None else Some(unique)
  }

  /** An id is relevant exactly when a non-null value of the chosen field
      belongs to a user who is not inactive, or an active user has linked it
      for the network; the list has no repeats, and is null rather than
      empty. */
  lemma NetworkUsersMembers(db: Directory, fieldName: PhpValue, n: Network)
    ensures var r := NetworkUsers(db, fieldName, n);
      var fid := FieldIdOf(db.fields, fieldName);
      var inactive := InactiveIds(db.users);
      && (r.Some? ==> |r.value| > 0 && forall i, j :: 0 <= i < j < |r.value| ==> r.value[i] != r.value[j])
      && forall id ::
        (r.Some? && id in r.value) <==>
          (exists fv :: fv in db.values && CountsAsCustomId(fv, fid, inactive) && fv.value == Some(id))
          || (exists u :: u in db.users && u.active && NativeId(u, n) == Some(id))
  {
    var fid := FieldIdOf(db.fields, fieldName);
    var inactive := InactiveIds(db.users);
    var custom := CustomIds(db.values, fid, inactive);
    var native := NativeIds(db.users, n);
    var all := custom + native;
    var unique := UniqueBy(all, Self);
    UniqueByFacts(all, Self);
    forall id ensures id in unique <==> id in all {
      if id in all {
        assert Self(id) in KeySet(all, Self);
        var x :| x in unique && Self(x) == Self(id);
      }
    }
    forall i, j | 0 <= i < j < |unique| ensures unique[i] != unique[j] {
      assert Self(unique[i]) != Self(unique[j]);
    }
  }

  /** The first user who linked the id for the network. */
  function FirstNative(users: seq<User>, n: Network, id: string): (r: Option<User>)
    ensures r.None? <==> forall u :: u in users ==> NativeId(u, n) != Some(id)
    ensures r.Some? ==> exists i :: (0 <= i < |users| && users[i] == r.value && NativeId(r.value, n) == Some(id)
      && forall j :: 0 <= j < i ==> NativeId(users[j], n) != Some(id))
  {
    if users == [] then None
    else if NativeId(users[0], n) == Some(id) then Some(users[0])
    else
      var r := FirstNative(users[1..], n, id);
      assert forall u :: u in users ==> u == users[0] || u in users[1..];
      if r.Some? then
        var i :| 0 <= i < |users[1..]| && users[1..][i] == r.value && NativeId(r.value, n) == Some(id)
          && forall j :: 0 <= j < i ==> NativeId(users[1..][j], n) != Some(id);
        assert users[i + 1] == r.value;
        assert forall j :: 0 <= j < i + 1 ==> NativeId(users[j], n) != Some(id) by {
          forall j | 0 <= j < i + 1 ensures NativeId(users[j], n) != Some(id) {
            if j > 0 { assert users[j] == users[1..][j - 1]; }
          }
        }
        r
      else r
  }

  /** The owner of the first stored value, of any field, equal to the id. */
  function FirstValueOwner(values: seq<FieldValue>, id: string): (r: Option<int>)
    ensures r.None? <==> forall fv :: fv in values ==> fv.value != Some(id)
    ensures r.Some? ==> exists i :: (0 <= i < |values| && values[i].userId == r.value && values[i].value == Some(id)
      && forall j :: 0 <= j < i ==> values[j].value != Some(id))
  {
    if values == [] then None
    else if values[0].value == Some(id) then Some(values[0].userId)
    else
      var r := FirstValueOwner(values[1..], id);
      assert forall fv :: fv in values ==> fv == values[0] || fv in values[1..];
      if r.Some? then
        var i :| 0 <= i < |values[1..]| && values[1..][i].userId == r.value && values[1..][i].value == Some(id)
          && forall j :: 0 <= j < i ==> values[1..][j].value != Some(id);
        assert values[i + 1] == values[1..][i];
        assert forall j :: 0 <= j < i + 1 ==> values[j].value != Some(id) by {
          forall j | 0 <= j < i + 1 ensures values[j].value != Some(id) {
            if j > 0 { assert values[j] == values[1..][j - 1]; }
          }
        }
        r
      else r
  }

  /** The user with the given id, if the table holds one. */
  function UserById(users: seq<User>, id: int): (r: Option<User>)
    ensures r.None? <==> forall u :: u in users ==> u.id != id
    ensures r.Some? ==> r.value in users && r.value.id == id
  {
    if users == [] then None
    else if users[0].id == id then Some(users[0])
    else
      assert forall u :: u in users ==> u == users[0] || u in users[1..];
      UserById(users[1..], id)
  }

  /** The user behind a network id: for a filled id, the first user who
      linked it for the network; failing that, the owner of the first stored
      profile value equal to the id. */
  function FindUser(db: Directory, networkId: string, n: Network): (r: Option<User>)
    ensures r.Some? ==> r.value in db.users
    ensures r.Some? ==> ((!Blank(networkId) && NativeId(r.value, n) == Some(networkId))
      || exists fv :: fv in db.values && fv.value == Some(networkId) && fv.userId == r.value.id)
  {
    var native := if !Blank(networkId) then FirstNative(db.users, n, networkId) else None;
    if native.Some? then native
    else
      var owner := FirstValueOwner(db.values, networkId);
      if owner.Some? then UserById(db.users, owner.value) else None
  }

  /** The linked account wins: for a filled id that some user has linked,
      the result is the first such user, whatever the profile values say. */
  lemma FindUserPrefersLinkedAccount(db: Directory, networkId: string, n: Network, i: nat)
    requires !Blank(networkId)
    requires i < |db.users| && NativeId(db.users[i], n) == Some(networkId)
    requires forall j :: 0 <= j < i ==> NativeId(db.users[j], n) != Some(networkId)
    ensures FindUser(db, networkId, n) == Some(db.users[i])
  {
    var r := FirstNative(db.users, n, networkId);
    assert db.users[i] in db.users;
    var k :| 0 <= k < |db.users| && db.users[k] == r.value && NativeId(r.value, n) == Some(networkId)
      && forall j :: 0 <= j < k ==> NativeId(db.users[j], n) != Some(networkId);
    assert k == i;
  }

  /** Without a linked account (or for a blank id) the profile values
      decide: the owner of the first value equal to the id, when that user
      exists; otherwise nobody. */
  lemma FindUserFallsBackToProfileField(db: Directory, networkId: string, n: Network)
    requires Blank(networkId) || forall u :: u in db.users ==> NativeId(u, n) != Some(networkId)
    ensures var owner := FirstValueOwner(db.values, networkId);
      FindUser(db, networkId, n) == if owner.Some? then UserById(db.users, owner.value) else None
    ensures (forall fv :: fv in db.values ==> fv.value != Some(networkId)) ==> FindUser(db, networkId, n).None?
  {
  }

  /** The first in-progress PIREP of the user, in the order of the PIREP
      query; a null user id matches the PIREPs stored without a user. */
  function FindActivePirep(pireps: seq<Pirep>, userId: Option<int>): (r: Option<Pirep>)
    ensures r.None? <==> forall p :: p in pireps ==> !(p.userId == userId && p.inProgress)
    ensures r.Some? ==> exists i :: (0 <= i < |pireps| && pireps[i] == r.value
      && r.value.userId == userId && r.value.inProgress
      && forall j :: 0 <= j < i ==> !(pireps[j].userId == userId && pireps[j].inProgress))
  {
    if pireps == [] then None
    else if pireps[0].userId == userId && pireps[0].inProgress then Some(pireps[0])
    else
      var r := FindActivePirep(pireps[1..], userId);
      assert forall p :: p in pireps ==> p == pireps[0] || p in pireps[1..];
      if r.Some? then
        var i :| 0 <= i < |pireps[1..]| && pireps[1..][i] == r.value
          && forall j :: 0 <= j < i ==> !(pireps[1..][j].userId == userId && pireps[1..][j].inProgress);
        assert pireps[i + 1] == r.value;
        assert forall j :: 0 <= j < i + 1 ==> !(pireps[j].userId == userId && pireps[j].inProgress) by {
          forall j | 0 <= j < i + 1 ensures !(pireps[j].userId == userId && pireps[j].inProgress) {
            if j > 0 { assert pireps[j] == pireps[1..][j - 1]; }
          }
        }
        r
      else r
  }

  /** The ICAO codes of the active airlines, in table order. */
  function AirlineIcaos(airlines: seq<Airline>): (r: seq<string>)
    ensures forall c :: c in r <==> exists a :: a in airlines && a.active && a.icao == c
    decreases |airlines|
  {
    if airlines == [] then []
    else
      var init, a := DropLast(airlines), Last(airlines);
      assert airlines == init + [a];
      AirlineIcaos(init) + if a.active then [a.icao] else []
  }
}
