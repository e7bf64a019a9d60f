/**
 Which permission codes an account holds, read from the resource table, and the
 direct rule the cached answer is meant to agree with.
 */
module PermissionRule {
  type RoleId = nat
  type ResourceId = nat
  type Code = string

  datatype AccountRow = AccountRow(id: nat, isStaff: bool, isSuperAdmin: bool, role: RoleId)

  datatype ResourceRow = ResourceRow(enabled: bool, assignable: bool, roles: set<RoleId>, permissions: set<Code>)

  type Tables = map<ResourceId, ResourceRow>

  /** The rows `get_account_resource_ids` selects. */
  function AccountResourceIds(tables: Tables, account: AccountRow): set<ResourceId> {
    var visible := set r | r in tables && tables[r].enabled && (account.isStaff || tables[r].assignable);
    if account.isSuperAdmin then visible else set r | r in visible && account.role in tables[r].roles
  }

  /** The join `Permission.filter(resources__id__in=ids)`. */
  function CodesOf(tables: Tables, ids: set<ResourceId>): set<Code> {
    set r, c | r in ids && r in tables && c in tables[r].permissions :: c
  }

  /**
   One call of `get_permission_codes`. It reads twice, so a table change can fall
   between the reads: `first` is the table at the resource query and `second` the
   table at the permission query.
   */
  function PermissionCodes(account: AccountRow, first: Tables, second: Tables): set<Code> {
    if account.isSuperAdmin then {"*"}
    else
      var ids := AccountResourceIds(first, account);
      if ids == {} then {} else CodesOf(second, ids)
  }

  function WantedCodes(app: string, checked: Code): set<Code> {
    {"*", app + ":*", checked}
  }

  /** The rule a reader of the tables would state. */
  ghost predicate MayCall(tables: Tables, account: AccountRow, app: string, checked: Code) {
    account.isSuperAdmin ||
    exists r :: r in tables && Grants(tables[r], account, app, checked)
  }

  predicate Grants(row: ResourceRow, account: AccountRow, app: string, checked: Code) {
    && row.enabled
    && (row.assignable || account.isStaff)
    && account.role in row.roles
    && ("*" in row.permissions || app + ":*" in row.permissions || checked in row.permissions)
  }

  /** What `ApiPermissionCheck` decides from a cached permission set. */
  predicate Admits(account: AccountRow, cached: set<Code>, app: string, checked: Code) {
    account.isSuperAdmin || WantedCodes(app, checked) * cached != {}
  }

  lemma WholeCallAgreesWithRule(tables: Tables, account: AccountRow, app: string, checked: Code)
    ensures Admits(account, PermissionCodes(account, tables, tables), app, checked)
       <==> MayCall(tables, account, app, checked)
  {
    if !account.isSuperAdmin {
      var ids := AccountResourceIds(tables, account);
      var codes := PermissionCodes(account, tables, tables);
      if Admits(account, codes, app, checked) {
        var c :| c in WantedCodes(app, checked) * codes;
        var r :| r in ids && c in tables[r].permissions;
        assert Grants(tables[r], account, app, checked);
      }
      if r :| r in tables && Grants(tables[r], account, app, checked) {
        var c :| c in WantedCodes(app, checked) && c in tables[r].permissions;
        assert r in ids;
        assert c in WantedCodes(app, checked) * codes;
      }
    }
  }
}
