/**
 The row-level-security policy and the transaction-local settings it reads.

 A database session carries two custom settings.  `set_config(name, value, true)` changes a setting until
 the end of the transaction only; a custom setting that had never been set comes back from such a
 transaction as the empty string rather than as missing, which is what `NULLIF(.., '')` in the policy is for.
 */
module RowSecurity {
  import opened Prelude

  // The text of a tenant's UUID, which is never empty.
  type TenantId = s: string | s != "" witness "0"

  datatype Setting = Missing | Text(value: string)

  // A session-level value and, inside a transaction that called set_config, the local value on top of it.
  datatype Guc = Guc(session: Setting, local: Option<string>)

  datatype Settings = Settings(tenant: Guc, bypass: Guc)

  const FRESH := Settings(Guc(Missing, None), Guc(Missing, None))

  // SQL's three-valued logic: a policy lets a row through only when it evaluates to True.
  datatype Truth = True | False | Unknown

  function CurrentSetting(g: Guc): Option<string> {
    match g.local
    case Some(v) => Some(v)
    case None => if g.session.Missing? then None else Some(g.session.value)
  }

  function NullIf(v: Option<string>, s: string): Option<string> {
    if v == Some(s) then None else v
  }

  function SqlEq(a: string, b: Option<string>): Truth {
    match b
    case None => Unknown
    case Some(s) => if a == s then True else False
  }

  function SqlOptEq(a: Option<string>, b: string): Truth {
    if a.None? then Unknown else SqlEq(a.value, Some(b))
  }

  function SqlOr(a: Truth, b: Truth): Truth {
    if a == True || b == True then True
    else if a == False && b == False then False
    else Unknown
  }

  // _PREDICATE, used both as USING (which rows exist for a statement) and as WITH CHECK (which rows it may write).
  function Policy(s: Settings, rowTenant: TenantId): Truth {
    SqlOr(SqlEq(rowTenant, NullIf(CurrentSetting(s.tenant), "")),
          SqlOptEq(CurrentSetting(s.bypass), "on"))
  }

  predicate Visible(s: Settings, rowTenant: TenantId) {
    Policy(s, rowTenant) == True
  }

  function SetLocal(g: Guc, v: string): Guc {
    g.(local := Some(v))
  }

  function BindRls(s: Settings, enabled: bool, tenant: Option<TenantId>, bypass: bool): Settings {
    if !enabled then s else
    var s1 := s.(bypass := SetLocal(s.bypass, if bypass then "on" else "off"));
    if tenant.None? then s1 else s1.(tenant := SetLocal(s1.tenant, tenant.value))
  }

  function Revert(g: Guc): Guc {
    if g.local.None? then g
    else Guc(if g.session.Missing? then Text("") else g.session, None)
  }

  // Commit and rollback both discard the transaction-local values.
  function EndTransaction(s: Settings): Settings {
    Settings(Revert(s.tenant), Revert(s.bypass))
  }

  predicate Blank(v: Setting) {
    v == Missing || v == Text("")
  }

  // No session-level value that could name a tenant or switch the policy off.
  predicate Neutral(s: Settings) {
    Blank(s.tenant.session) && Blank(s.bypass.session)
  }

  // A connection as it lies in the pool between transactions.
  predicate Idle(s: Settings) {
    Neutral(s) && s.tenant.local.None? && s.bypass.local.None?
  }

  // What a transaction bound to `tenant` and `bypass` is meant to see.
  predicate Sees(enabled: bool, tenant: Option<TenantId>, bypass: bool, rowTenant: TenantId) {
    enabled && (bypass || tenant == Some(rowTenant))
  }

  // The settings realise exactly the intended scope.
  ghost predicate Scoped(s: Settings, enabled: bool, tenant: Option<TenantId>, bypass: bool) {
    forall row: TenantId :: Visible(s, row) <==> Sees(enabled, tenant, bypass, row)
  }

  /** Whatever transactions used a connection before, binding scopes it to exactly the rows asked for;
      in particular a transaction bound to no tenant sees nothing, and so does every transaction when
      the application is told not to bind (`enable_row_level_security` off) while the policies are in force. */
  lemma BindScopes(s: Settings, enabled: bool, tenant: Option<TenantId>, bypass: bool)
    requires Idle(s)
    ensures Scoped(BindRls(s, enabled, tenant, bypass), enabled, tenant, bypass)
    ensures forall row: TenantId ::
              Visible(BindRls(s, enabled, tenant, bypass), row) <==> enabled && (bypass || tenant == Some(row))
    ensures Idle(EndTransaction(BindRls(s, enabled, tenant, bypass)))
  {
    var b := BindRls(s, enabled, tenant, bypass);
    forall row: TenantId
      ensures Visible(b, row) <==> Sees(enabled, tenant, bypass, row)
    {
      assert CurrentSetting(b.bypass) == Some("on") <==> enabled && bypass;
      assert NullIf(CurrentSetting(b.tenant), "") == Some(row) <==> enabled && tenant == Some(row);
    }
  }

  /** One pooled database connection and the settings of its session, changed in place. */
  class Connection {
    var tenantSetting: Guc
    var bypassSetting: Guc
    var inTransaction: bool

    ghost function Value(): (s: Settings)
      reads this
    {
      Settings(tenantSetting, bypassSetting)
    }

    ghost predicate Valid()
      reads this
    {
      Neutral(Value()) && (!inTransaction ==> Idle(Value()))
    }

    constructor ()
      ensures Valid() && Value() == FRESH && !inTransaction
    {
      tenantSetting, bypassSetting, inTransaction := Guc(Missing, None), Guc(Missing, None), false;
    }

    method BindSettings(enabled: bool, tenant: Option<TenantId>, bypass: bool)
      modifies this
      ensures Value() == BindRls(old(Value()), enabled, tenant, bypass)
      ensures inTransaction == old(inTransaction)
    {
      if !enabled {
        return;
      }
      bypassSetting := SetLocal(bypassSetting, if bypass then "on" else "off");
      if tenant.Some? {
        tenantSetting := SetLocal(tenantSetting, tenant.value);
      }
    }

    /** `get_db` up to the point where it yields the session: begin, then bind. */
    method Open(enabled: bool, tenant: Option<TenantId>, bypass: bool)
      requires Valid() && !inTransaction
      modifies this
      ensures Valid() && inTransaction
      ensures Scoped(Value(), enabled, tenant, bypass)
      ensures Value() == BindRls(old(Value()), enabled, tenant, bypass)
    {
      BindScopes(Value(), enabled, tenant, bypass);
      inTransaction := true;
      BindSettings(enabled, tenant, bypass);
    }

    /** The end of `get_db`: commit or rollback, after which the connection returns to the pool. */
    method Close()
      requires Valid() && inTransaction
      modifies this
      ensures Valid() && !inTransaction
      ensures Value() == EndTransaction(old(Value()))
    {
      if tenantSetting.local.Some? {
        tenantSetting := Guc(if tenantSetting.session.Missing? then Text("") else tenantSetting.session, None);
      }
      if bypassSetting.local.Some? {
        bypassSetting := Guc(if bypassSetting.session.Missing? then Text("") else bypassSetting.session, None);
      }
      inTransaction := false;
    }
  }
}
