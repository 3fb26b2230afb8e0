/** The menu DTOs (menu/DTO.kt): the validated link and the two recursive item shapes, with their key rules. */
module Menu {
  import opened Wrappers
  import opened Values
  import opened ErrorDto
  import opened Failures

  /** The fields of a `MenuLink`. */
  datatype MenuLink = MenuLink(href: Option<string>, alias: Option<string>)

  /** The violation raised for a link with neither field. */
  const MISSING_HREF := ConstraintViolation("href", Null, NOT_NULL)

  /** The `init` rule: without an alias, the href must be present. */
  predicate IsValidLink(href: Option<string>, alias: Option<string>) {
    alias.None? ==> href.Some?
  }

  /** A `MenuLink` that has passed its `init` check; only these can be constructed. */
  type ValidMenuLink = l: MenuLink | IsValidLink(l.href, l.alias) witness MenuLink(Some(""), None)

  /** Construct a `MenuLink`, running its `init` validation. */
  function NewMenuLink(href: Option<string>, alias: Option<string>): (r: Result<ValidMenuLink, Failure>)
    ensures r.Ok? <==> href.Some? || alias.Some?
    ensures r.Ok? ==> r.value == MenuLink(href, alias)
    ensures r.Err? ==> r.error == Failure(ValidationConstraintViolation([MISSING_HREF]), None, None)
  {
    if alias.None? && href.None? then Err(Failure(ValidationConstraintViolation([MISSING_HREF]), None, None))
    else Ok(MenuLink(href, alias))
  }

  /** The three accepted shapes and the one rejected shape. */
  lemma MenuLinkShapes(href: string, alias: string)
    ensures NewMenuLink(Some(href), None).Ok? && NewMenuLink(None, Some(alias)).Ok?
    ensures NewMenuLink(Some(href), Some(alias)).Ok?
    ensures NewMenuLink(None, None).Err?
    ensures forall h, a :: NewMenuLink(h, a).Ok? <==> IsValidLink(h, a)
  {
  }

  /** `MenuItem.Main`. */
  datatype Main = Main(id: string, text: string, link: ValidMenuLink, children: Mains)

  /** A nullable `List<Main>`. */
  datatype Mains = NoMains | SomeMains(mains: seq<Main>)

  /** `MenuItem.Admin`. */
  datatype Admin = Admin(id: string, icon: string, text: string, link: ValidMenuLink, items: Admins)

  /** A nullable `List<Admin>`. */
  datatype Admins = NoAdmins | SomeAdmins(admins: seq<Admin>)

  /** Adds `key` to an object only when the value is present (`NON_NULL`). */
  function PutIfPresent(obj: map<string, Value>, key: string, v: Option<Value>): (r: map<string, Value>)
    ensures v.None? ==> r == obj
    ensures v.Some? ==> r == obj[key := v.value]
  {
    match v
    case None => obj
    case Some(x) => obj[key := x]
  }

  /** The serialised link: exactly its non-null keys, with their values. */
  function MenuLinkJson(l: MenuLink): (j: map<string, Value>)
    ensures "href" in j <==> l.href.Some?
    ensures "alias" in j <==> l.alias.Some?
    ensures j.Keys <= {"href", "alias"}
    ensures l.href.Some? ==> j["href"] == Str(l.href.value)
    ensures l.alias.Some? ==> j["alias"] == Str(l.alias.value)
  {
    var withHref := PutIfPresent(map[], "href", if l.href.Some? then Some(Str(l.href.value)) else None);
    PutIfPresent(withHref, "alias", if l.alias.Some? then Some(Str(l.alias.value)) else None)
  }

  /** A valid link never serialises to an empty object. */
  lemma ValidLinkJsonNonEmpty(l: ValidMenuLink)
    ensures MenuLinkJson(l).Keys != {}
  {
    var j := MenuLinkJson(l);
    if l.href.Some? {
      assert "href" in j;
    } else {
      assert "alias" in j;
    }
  }

  /** The serialised main item; `children` is omitted when null. */
  function MainJson(m: Main): (j: map<string, Value>)
    ensures j.Keys == {"id", "text", "link"} + (if m.children.SomeMains? then {"children"} else {})
    ensures j["id"] == Str(m.id) && j["text"] == Str(m.text) && j["link"] == Object(MenuLinkJson(m.link))
    ensures m.children.SomeMains? ==> j["children"].Array? && |j["children"].items| == |m.children.mains|
    ensures m.children.SomeMains? ==>
              forall i :: 0 <= i < |m.children.mains| ==> j["children"].items[i] == Object(MainJson(m.children.mains[i]))
    decreases m
  {
    var base := map["id" := Str(m.id), "text" := Str(m.text), "link" := Object(MenuLinkJson(m.link))];
    match m.children
    case NoMains => base
    case SomeMains(cs) => base["children" := Array(seq(|cs|, i requires 0 <= i < |cs| => Object(MainJson(cs[i]))))]
  }

  /** The serialised admin item; `items` is omitted when null. */
  function AdminJson(a: Admin): (j: map<string, Value>)
    ensures j.Keys == {"id", "icon", "text", "link"} + (if a.items.SomeAdmins? then {"items"} else {})
    ensures j["id"] == Str(a.id) && j["icon"] == Str(a.icon) && j["text"] == Str(a.text)
    ensures j["link"] == Object(MenuLinkJson(a.link))
    ensures a.items.SomeAdmins? ==> j["items"].Array? && |j["items"].items| == |a.items.admins|
    ensures a.items.SomeAdmins? ==>
              forall i :: 0 <= i < |a.items.admins| ==> j["items"].items[i] == Object(AdminJson(a.items.admins[i]))
    decreases a
  {
    var base := map["id" := Str(a.id), "icon" := Str(a.icon), "text" := Str(a.text),
                     "link" := Object(MenuLinkJson(a.link))];
    match a.items
    case NoAdmins => base
    case SomeAdmins(xs) => base["items" := Array(seq(|xs|, i requires 0 <= i < |xs| => Object(AdminJson(xs[i]))))]
  }

  /** Dropping the children of a main item removes exactly the `children` key and nothing else. */
  lemma MainWithoutChildren(m: Main)
    requires m.children.SomeMains?
    ensures MainJson(m.(children := NoMains)) == MainJson(m) - {"children"}
  {
  }

  /** Dropping the items of an admin item removes exactly the `items` key and nothing else. */
  lemma AdminWithoutItems(a: Admin)
    requires a.items.SomeAdmins?
    ensures AdminJson(a.(items := NoAdmins)) == AdminJson(a) - {"items"}
  {
  }
}
