/** Role maintenance: role names are stored upper-cased. */
module RoleService {

  import opened Results
  import opened Tables
  import opened Text
  import opened Entities
  import opened Store
  import opened Views

  const RoleNotFound := "Role not found"

  /** createRole: saves one role whose name is the given name upper-cased. */
  method CreateRole(db: Database, name: string) returns (r: Result<()>)
    requires db.Valid()
    modifies db
    ensures db.Valid()
    ensures r == Ok(())
    ensures db.State() == old(db.State()).(roles := old(db.roles).Insert(Role(ToUpper(name))))
    ensures IsUpperCase(db.roles.rows[old(db.roles.nextId)].name)
  {
    var role := Role(name);
    role := role.(name := ToUpper(role.name));
    var saved := db.SaveRole(role);
    r := Ok(());
  }

  /** updateRole: the role's name becomes the given name upper-cased;
      nothing else changes. */
  method UpdateRole(db: Database, id: Id, name: string) returns (r: Result<()>)
    requires db.Valid()
    modifies db
    ensures db.Valid()
    ensures id !in old(db.roles.rows) ==>
              r == Err(NotFound(RoleNotFound)) && db.State() == old(db.State())
    ensures id in old(db.roles.rows) ==>
              && r == Ok(())
              && db.State() == old(db.State()).(roles := old(db.roles).Put(id, Role(ToUpper(name))))
              && IsUpperCase(db.roles.rows[id].name)
  {
    if id !in db.roles.rows {
      return Err(NotFound(RoleNotFound));
    }
    var role := db.roles.rows[id];
    role := role.(name := ToUpper(name));
    db.PutRole(id, role);
    r := Ok(());
  }

  /** getAllRoles: one entry per stored role, with its id and name. */
  function AllRoles(s: Snapshot): (r: seq<RoleDto>)
    requires Consistent(s)
    ensures forall id :: id in RoleIds(r) <==> id in s.roles.rows
    ensures |r| == |s.roles.rows|
    ensures forall k :: 0 <= k < |r| ==> r[k].id in s.roles.rows && r[k].name == s.roles.rows[r[k].id].name
  {
    var ids := InKeyOrder(s.roles, All);
    ListAllCount(s.roles);
    var r := seq(|ids|, k requires 0 <= k < |ids| => RoleView(s, ids[k]));
    assert RoleIds(r) == ids;
    r
  }
}
