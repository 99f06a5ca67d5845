/**
 * Strict mode: the optional template `{globalKeys, pages}` that restricts which
 * item keys the global page may hold and which pages may be used at all.
 */
module Strict {
  import opened Values
  import opened Scope

  /** `list.some(item => item === x)`. */
  function SomeEquals(list: seq<Value>, x: string): (r: bool)
    ensures r <==> Str(x) in list
  {
    if list == [] then false else list[0] == Str(x) || SomeEquals(list[1..], x)
  }

  /** `const { name } = template`: destructuring `undefined` or `null` throws. */
  function TemplateField(template: Value, name: string): (r: Result<Value>)
    ensures r.Err? <==> template == Undefined || template == Null
    ensures r.Err? ==> r.error == TypeError
    ensures template.Obj? && name in template.fields ==> r == Ok(template.fields[name])
    ensures r.Ok? && !(template.Obj? && name in template.fields) ==> r.value == Undefined
  {
    match template
    case Undefined => Err(TypeError)
    case Null => Err(TypeError)
    case Obj(fields) => Ok(if name in fields then fields[name] else Undefined)
    case _ => Ok(Undefined)
  }

  /**
   * The template declares the access: on the global page the exact item key is
   * listed in `globalKeys`; on any other page the page is listed in `pages`.
   */
  predicate Declared(template: Value, page: string, itemKey: string)
  {
    var list := if page == GlobalPage then "globalKeys" else "pages";
    var wanted := if page == GlobalPage then itemKey else page;
    && template.Obj?
    && list in template.fields
    && template.fields[list].Arr?
    && Str(wanted) in template.fields[list].items
  }

  /** `strictCheck`. */
  function StrictCheck(strict: bool, template: Value, page: string, itemKey: string): (c: Check)
    ensures !strict ==> c == Pass
    ensures strict && template.Obj? ==> (c == Pass <==> Declared(template, page, itemKey))
    ensures c.Fail? ==> c.error.Schema? || (c.error == TypeError && template in {Undefined, Null})
  {
    if !strict then Pass
    else if IsGlobalStore(page) then
      match TemplateField(template, "globalKeys")
      case Err(e) => Fail(e)
      case Ok(globalKeys) =>
        if TypeTag(globalKeys) != "array" then Fail(Schema(GlobalKeysNotArray))
        else if !SomeEquals(globalKeys.items, itemKey) then Fail(Schema(KeyNotDeclared))
        else Pass
    else
      match TemplateField(template, "pages")
      case Err(e) => Fail(e)
      case Ok(pages) =>
        if TypeTag(pages) != "array" then Fail(Schema(PagesNotArray))
        else if !SomeEquals(pages.items, page) then Fail(Schema(PageNotDeclared))
        else Pass
  }

  /** Off the global page only the page is checked, never the subpath or key. */
  lemma StrictIgnoresItemKeyOffGlobal(strict: bool, template: Value, page: string, k1: string, k2: string)
    requires page != GlobalPage
    ensures StrictCheck(strict, template, page, k1) == StrictCheck(strict, template, page, k2)
  {
  }

  /** Which error a strict check raises for a plain-object template. */
  lemma StrictFailureReasons(template: Value, page: string, itemKey: string)
    requires template.Obj?
    ensures var list := if page == GlobalPage then "globalKeys" else "pages";
      var field := if list in template.fields then template.fields[list] else Undefined;
      StrictCheck(true, template, page, itemKey) ==
        if !field.Arr? then
          Fail(Schema(if page == GlobalPage then GlobalKeysNotArray else PagesNotArray))
        else if !Declared(template, page, itemKey) then
          Fail(Schema(if page == GlobalPage then KeyNotDeclared else PageNotDeclared))
        else Pass
  {
  }
}
