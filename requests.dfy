/**
 * JavaScript's `Number(x)` coercion as the request transforms apply it to raw query values.
 * `None` stands for `NaN`.
 */
module JsNumber {
  import opened Wrappers
  import Js
  import Strings

  /**
   * `Number(s)` on a string: the empty string is 0; a decimal numeral, with an optional sign,
   * is its value; any other text is `NaN`.
   */
  function TextToNumber(s: string): (r: Option<real>)
    ensures Strings.IsNumeral(s, 10) ==> r == Some(Strings.ParseNat(s, 10) as real)
  {
    if Strings.IsNumeral(s, 10) then Some(Strings.ParseNat(s, 10) as real)
    else if |s| > 1 && (s[0] == '-' || s[0] == '+') && Strings.IsNumeral(s[1..], 10) then
      var n := Strings.ParseNat(s[1..], 10) as real;
      Some(if s[0] == '-' then -n else n)
    else None
  }

  /** `Number(v)` on any value a query object can hold. */
  function ToNumber(v: Js.Value): (r: Option<real>)
    ensures v.Number? ==> r == Some(v.n)
    ensures v.Text? ==> r == TextToNumber(v.s)
    ensures v.Boolean? ==> r == Some(if v.b then 1.0 else 0.0)
    ensures v.NullValue? ==> r == Some(0.0)
    ensures v.UndefinedValue? || v.Object? ==> r.None?
  {
    match v
    case Number(n) => Some(n)
    case Text(s) => TextToNumber(s)
    case Boolean(b) => Some(if b then 1.0 else 0.0)
    case NullValue => Some(0.0)
    case UndefinedValue => None
    case Object => None
  }

  /** A number is truthy when it is neither 0 nor `NaN`. */
  predicate Truthy(n: Option<real>) {
    n.Some? && n.value != 0.0
  }

  /** `n || fallback` on a number. */
  function OrElse(n: Option<real>, fallback: real): (r: real)
    ensures Truthy(n) ==> r == n.value
    ensures !Truthy(n) ==> r == fallback
  {
    if Truthy(n) then n.value else fallback
  }

  /** Reading back the decimal text of a natural number gives the number. */
  lemma TextToNumberOfNumeral(n: nat)
    ensures TextToNumber(Strings.NatToString(n, 10)) == Some(n as real)
  {
    Strings.ParseNatToString(n, 10);
  }
}

/**
 * The `skip` transform shared by the list requests of users, devices, accounts, plants and
 * notifications: `((Number(page) || PAGE) - 1) * (Number(limit) || LIMIT)` over the raw
 * `page` and `limit` of the query. The defaults are those of `PAGINATION_DEFAULT`.
 */
module Pagination {
  import opened Wrappers
  import Js
  import Strings
  import opened JsNumber

  datatype PaginationDefault = PaginationDefault(page: real, limit: real)

  /** The page actually read: the query's page when it is a truthy number, else the default. */
  function EffectivePage(page: Js.Value, defaults: PaginationDefault): (r: real)
    ensures Truthy(ToNumber(page)) ==> r == ToNumber(page).value
    ensures !Truthy(ToNumber(page)) ==> r == defaults.page
    ensures r != 0.0 || defaults.page == 0.0
  {
    OrElse(ToNumber(page), defaults.page)
  }

  /** The limit actually read: the query's limit when it is a truthy number, else the default. */
  function EffectiveLimit(limit: Js.Value, defaults: PaginationDefault): (r: real)
    ensures Truthy(ToNumber(limit)) ==> r == ToNumber(limit).value
    ensures !Truthy(ToNumber(limit)) ==> r == defaults.limit
    ensures r != 0.0 || defaults.limit == 0.0
  {
    OrElse(ToNumber(limit), defaults.limit)
  }

  /** `skip`: how many records the requested page starts after. */
  function Skip(page: Js.Value, limit: Js.Value, defaults: PaginationDefault): (r: real)
    ensures EffectivePage(page, defaults) == 1.0 ==> r == 0.0
    ensures EffectivePage(page, defaults) >= 1.0 && EffectiveLimit(limit, defaults) >= 0.0 ==> r >= 0.0
  {
    (EffectivePage(page, defaults) - 1.0) * EffectiveLimit(limit, defaults)
  }

  /**
   * A page and a limit that convert to non-zero numbers are used as they are, whether they
   * arrive as numbers or as text of the query string (`TextToNumber` reads decimal numerals).
   */
  lemma SkipOfNumbers(page: Js.Value, limit: Js.Value, p: real, l: real, defaults: PaginationDefault)
    requires ToNumber(page) == Some(p) && p != 0.0
    requires ToNumber(limit) == Some(l) && l != 0.0
    ensures Skip(page, limit, defaults) == (p - 1.0) * l
  {
  }

  /** The first page skips nothing, whatever the limit. */
  lemma SkipFirstPage(page: Js.Value, limit: Js.Value, defaults: PaginationDefault)
    requires ToNumber(page) == Some(1.0) || (!Truthy(ToNumber(page)) && defaults.page == 1.0)
    ensures Skip(page, limit, defaults) == 0.0
  {
  }

  /** Consecutive pages are adjacent: the next page starts one limit further on. */
  lemma SkipNextPage(page: real, limit: Js.Value, defaults: PaginationDefault)
    requires page != 0.0 && page + 1.0 != 0.0
    ensures Skip(Js.Number(page + 1.0), limit, defaults)
      == Skip(Js.Number(page), limit, defaults) + EffectiveLimit(limit, defaults)
  {
    var l := EffectiveLimit(limit, defaults);
    assert (page + 1.0 - 1.0) * l == (page - 1.0) * l + l;
  }
}

/** The `exclude_roles` transform of the list-users request. */
module ListUsersRequest {
  import opened Wrappers
  import Strings
  import opened JsNumber

  /** The names of the `USER_ROLE` enum, by their numeric values. */
  const UserRoleNames: seq<string> := ["super-admin", "tenant-user", "tenant-admin", "analyst"]

  /**
   * `USER_ROLE[n]`: the reverse lookup of a numeric enum, defined only at the enum's values;
   * `NaN`, fractions and other numbers name no role.
   */
  function UserRole(n: Option<real>): (r: Option<string>)
    ensures r.Some? <==> n.Some? && n.value in {0.0, 1.0, 2.0, 3.0}
    ensures r.Some? ==> r.value == UserRoleNames[n.value.Floor]
  {
    if n.Some? && n.value.Floor as real == n.value && 0 <= n.value.Floor < |UserRoleNames| then
      Some(UserRoleNames[n.value.Floor])
    else None
  }

  /**
   * `.map(item => Number(item)).map(item => USER_ROLE[item]).filter(item => item)` over the
   * comma-separated pieces: the role named by each piece, in order, dropping the pieces that
   * name none.
   */
  function RolesOf(items: seq<string>): (r: seq<string>)
    ensures |r| <= |items|
    ensures forall k :: 0 <= k < |r| ==> r[k] in UserRoleNames
  {
    if items == [] then []
    else
      match UserRole(TextToNumber(items[0]))
      case Some(name) => [name] + RolesOf(items[1..])
      case None => RolesOf(items[1..])
  }

  /** The `exclude_roles` transform of a query string value. */
  function ExcludeRoles(value: string): (r: seq<string>)
    ensures |r| <= |Strings.Split(value, ',')|
    ensures forall k :: 0 <= k < |r| ==> r[k] in UserRoleNames
  {
    RolesOf(Strings.Split(value, ','))
  }

  /** The roles of a concatenation are the roles of each part, in order. */
  lemma {:induction false} RolesOfAppend(a: seq<string>, b: seq<string>)
    decreases |a|
    ensures RolesOf(a + b) == RolesOf(a) + RolesOf(b)
  {
    if a == [] {
      assert a + b == b;
    } else {
      assert (a + b)[0] == a[0];
      assert (a + b)[1..] == a[1..] + b;
      RolesOfAppend(a[1..], b);
    }
  }

  /** A single piece yields its role, or nothing when it names none. */
  lemma ExcludeRolesItem(item: string)
    requires ',' !in item
    ensures ExcludeRoles(item) ==
      match UserRole(TextToNumber(item)) case Some(name) => [name] case None => []
  {
    assert Strings.Split(item, ',') == [item];
    assert [item][1..] == [];
  }

  /**
   * Pieces keep their order: the roles of `a,b` are the roles of `a` followed by those of
   * `b`. With `ExcludeRolesItem` this determines the transform on every value.
   */
  lemma ExcludeRolesConcat(a: string, b: string)
    ensures ExcludeRoles(a + [','] + b) == ExcludeRoles(a) + ExcludeRoles(b)
  {
    Strings.SplitConcat(a, b, ',');
    RolesOfAppend(Strings.Split(a, ','), Strings.Split(b, ','));
  }

  /** An empty piece converts to 0 and so names the super administrator. */
  lemma ExcludeRolesEmpty()
    ensures ExcludeRoles("") == ["super-admin"]
  {
    ExcludeRolesItem("");
  }

  /** Pieces that are not 0 to 3 are dropped; an empty last piece is role 0. */
  lemma ExcludeRolesExample()
    ensures ExcludeRoles("3,x,") == ["analyst", "super-admin"]
  {
    assert TextToNumber("3") == Some(3.0) by {
      assert Strings.IsNumeral("3", 10);
      assert Strings.ParseNat("3", 10) == 3 by {
        assert "3"[..0] == "";
      }
    }
    assert TextToNumber("x") == None by {
      assert Strings.DigitValue('x') == 33;
    }
    assert UserRole(Some(3.0)) == Some("analyst");
    ExcludeRolesItem("3");
    ExcludeRolesItem("x");
    ExcludeRolesEmpty();
    ExcludeRolesConcat("x", "");
    assert "x" + [','] + "" == "x,";
    ExcludeRolesConcat("3", "x,");
    assert "3" + [','] + "x," == "3,x,";
  }
}

/**
 * The normalize pipes of the notification queries (NormalizeListNotificationPipe and
 * NormalizeFindQueryPipe): each defaults, in place, a loosely-undefined `limit` to 0 and a
 * loosely-undefined `page` to 1, and returns the object it was given.
 */
module NotificationQueryPipes {
  import Js

  /** `if (x == undefined) x = fallback`: `undefined` and `null` are replaced, anything else kept. */
  function Defaulted(x: Js.Nullable<real>, fallback: real): (r: Js.Nullable<real>)
    ensures !r.IsNullish()
    ensures x.IsNullish() ==> r == Js.Defined(fallback)
    ensures !x.IsNullish() ==> r == x
  {
    if x.IsNullish() then Js.Defined(fallback) else x
  }

  /** Defaulting twice is defaulting once. */
  lemma DefaultedIdempotent(x: Js.Nullable<real>, fallback: real)
    ensures Defaulted(Defaulted(x, fallback), fallback) == Defaulted(x, fallback)
  {
  }

  /** The query of the notification list (ListNotificationDto): its paging fields and the rest. */
  class ListNotificationQuery {
    var page: Js.Nullable<real>
    var limit: Js.Nullable<real>
    var others: map<string, Js.Value>

    constructor (page: Js.Nullable<real>, limit: Js.Nullable<real>, others: map<string, Js.Value>)
      ensures this.page == page && this.limit == limit && this.others == others
    {
      this.page := page;
      this.limit := limit;
      this.others := others;
    }
  }

  /** NormalizeListNotificationPipe.transform. */
  method NormalizeListNotification(query: ListNotificationQuery) returns (r: ListNotificationQuery)
    modifies query
    ensures r == query
    ensures query.limit == Defaulted(old(query.limit), 0.0)
    ensures query.page == Defaulted(old(query.page), 1.0)
    ensures query.others == old(query.others)
  {
    if query.limit.IsNullish() {
      query.limit := Js.Defined(0.0);
    }
    if query.page.IsNullish() {
      query.page := Js.Defined(1.0);
    }
    return query;
  }

  /** Running the list pipe a second time changes nothing more. */
  method NormalizeListNotificationIdempotent(query: ListNotificationQuery)
    modifies query
    ensures query.limit == Defaulted(old(query.limit), 0.0)
    ensures query.page == Defaulted(old(query.page), 1.0)
    ensures query.others == old(query.others)
  {
    var once := NormalizeListNotification(query);
    var twice := NormalizeListNotification(once);
    DefaultedIdempotent(old(query.limit), 0.0);
    DefaultedIdempotent(old(query.page), 1.0);
  }

  /** The notification find query (FindQueryDto): paging and sorting fields and the derived `skip`. */
  class FindQuery {
    var page: Js.Nullable<real>
    var limit: Js.Nullable<real>
    var sortBy: Js.Nullable<string>
    var sortOrder: Js.Nullable<real>
    var skip: Js.Nullable<real>

    constructor (page: Js.Nullable<real>, limit: Js.Nullable<real>, sortBy: Js.Nullable<string>,
                 sortOrder: Js.Nullable<real>, skip: Js.Nullable<real>)
      ensures this.page == page && this.limit == limit
      ensures this.sortBy == sortBy && this.sortOrder == sortOrder && this.skip == skip
    {
      this.page := page;
      this.limit := limit;
      this.sortBy := sortBy;
      this.sortOrder := sortOrder;
      this.skip := skip;
    }
  }

  /** NormalizeFindQueryPipe.transform. */
  method NormalizeFindQuery(query: FindQuery) returns (r: FindQuery)
    modifies query
    ensures r == query
    ensures query.limit == Defaulted(old(query.limit), 0.0)
    ensures query.page == Defaulted(old(query.page), 1.0)
    ensures query.sortBy == old(query.sortBy) && query.sortOrder == old(query.sortOrder)
    ensures query.skip == old(query.skip)
  {
    if query.limit.IsNullish() {
      query.limit := Js.Defined(0.0);
    }
    if query.page.IsNullish() {
      query.page := Js.Defined(1.0);
    }
    return query;
  }

  /** Running the find-query pipe a second time changes nothing more. */
  method NormalizeFindQueryIdempotent(query: FindQuery)
    modifies query
    ensures query.limit == Defaulted(old(query.limit), 0.0)
    ensures query.page == Defaulted(old(query.page), 1.0)
    ensures query.sortBy == old(query.sortBy) && query.sortOrder == old(query.sortOrder)
    ensures query.skip == old(query.skip)
  {
    var once := NormalizeFindQuery(query);
    var twice := NormalizeFindQuery(once);
    DefaultedIdempotent(old(query.limit), 0.0);
    DefaultedIdempotent(old(query.page), 1.0);
  }
}
