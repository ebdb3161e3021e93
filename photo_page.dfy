/**
 * The attachment-URL resolver of the weight-photo page
 * (src/app/record/photo/page.tsx). It picks the path with `??`, so only null
 * and undefined fall through to the next field, where the migration's
 * resolver uses `||` and also skips the empty string.
 */
module PhotoPage {
  import opened Wrappers
  import opened Strings
  import opened Js
  import MigrateMappers

  /** `a ?? b`. */
  function Coalesce(a: Value, b: Value): Value {
    if a.Null? || a.Undef? then b else a
  }

  /** `photo.url ?? photo.signedPath ?? photo.path ?? ''`. */
  function RawPath(photo: Value): Value {
    Coalesce(Prop(photo, "url"), Coalesce(Prop(photo, "signedPath"), Coalesce(Prop(photo, "path"), Str(""))))
  }

  /**
   * `resolveAttachmentUrl` against the NocoDB URL `base`: nothing for a
   * falsy attachment or a falsy path, an http(s) path unchanged, and any
   * other path joined to `base`. `startsWith` on a path that is not a string
   * throws.
   */
  function PhotoUrlAt(base: string, photo: Value): Result<Option<string>> {
    if !Truthy(photo) then Success(None)
    else
      var raw := RawPath(photo);
      if !Truthy(raw) then Success(None)
      else if !raw.Str? then Failure("TypeError: raw.startsWith is not a function")
      else if MigrateMappers.IsHttpUrl(raw.s) then Success(Some(raw.s))
      else Success(Some(MigrateMappers.JoinUrl(base, raw.s)))
  }

  /** The value the page receives for `NOCODB_URL`, which src/lib/nocodb.ts declares but does not export. */
  const ImportedNocoUrl: string := "undefined"

  /** `process.env.NEXT_PUBLIC_NOCODB_URL || 'http://docker.home:8020'`, as src/lib/nocodb.ts defines it. */
  function NocoDbUrl(setting: Option<string>): string {
    if setting.Some? && setting.value != "" then setting.value else "http://docker.home:8020"
  }

  /** The resolver as written: relative paths are joined to the text of the missing import. */
  function PhotoUrlAsWritten(photo: Value): Result<Option<string>> {
    PhotoUrlAt(ImportedNocoUrl, photo)
  }

  /** The resolver as intended: relative paths are joined to the configured NocoDB URL. */
  function PhotoUrl(setting: Option<string>, photo: Value): Result<Option<string>> {
    PhotoUrlAt(NocoDbUrl(setting), photo)
  }

  /**
   * A falsy attachment or a falsy path gives nothing, a truthy path that is
   * not a string fails, an http(s) path comes back unchanged and any other
   * path is joined to the NocoDB URL, so a URL produced is absolute or lies
   * under it.
   */
  lemma PhotoUrlCases(base: string, photo: Value)
    ensures var r := PhotoUrlAt(base, photo);
      && (r == Success(None) <==> !Truthy(photo) || !Truthy(RawPath(photo)))
      && (r.Failure? <==> Truthy(photo) && Truthy(RawPath(photo)) && !RawPath(photo).Str?)
      && (r.Success? && r.value.Some? ==>
        RawPath(photo).Str? && (r.value.value == RawPath(photo).s || StartsWith(r.value.value, base + "/")))
    ensures var raw := RawPath(photo);
      Truthy(photo) && Truthy(raw) && raw.Str? ==>
        PhotoUrlAt(base, photo) == Success(Some(if MigrateMappers.IsHttpUrl(raw.s) then raw.s else MigrateMappers.JoinUrl(base, raw.s)))
  {
    var r := PhotoUrlAt(base, photo);
    if r.Success? && r.value.Some? && !MigrateMappers.IsHttpUrl(RawPath(photo).s) {
      var u := MigrateMappers.JoinUrl(base, RawPath(photo).s);
      assert u[..|base| + 1] == base + "/";
    }
  }

  /** The first field that is neither null nor undefined wins, even when it is empty. */
  lemma RawPathFirstSet(photo: Value)
    ensures !(Prop(photo, "url").Null? || Prop(photo, "url").Undef?) ==> RawPath(photo) == Prop(photo, "url")
    ensures Prop(photo, "url") == Str("") ==> PhotoUrlAt(ImportedNocoUrl, photo) == Success(None)
  {
  }

  /**
   * An empty `url` hides a set `path` here, where the migration's resolver
   * falls through to the path.
   */
  lemma EmptyUrlHidesPath(host: Host, base: string)
    ensures var photo := Obj(map["url" := Str(""), "path" := Str("/p")]);
      && PhotoUrlAt(base, photo) == Success(None)
      && MigrateMappers.ResolveAttachmentUrl(host, base, photo) == Success(Some(base + "/p"))
  {
    var photo := Obj(map["url" := Str(""), "path" := Str("/p")]);
    var candidates := [Prop(photo, "url"), Prop(photo, "signedPath"), Prop(photo, "path")];
    FirstTruthyTriple(candidates[0], candidates[1], candidates[2]);
    assert candidates == [Str(""), Undef, Str("/p")];
    SlashNotHttp("/p");
    assert MigrateMappers.JoinUrl(base, "/p") == base + "/p";
  }

  /** No field is empty or otherwise falsy without being null or undefined. */
  predicate UnsetOrTruthy(v: Value) {
    v.Null? || v.Undef? || Truthy(v)
  }

  /**
   * When every field is unset or truthy and the chosen one is a string, the
   * page and the migration resolve the attachment to the same URL.
   */
  lemma AgreesWithMigration(host: Host, base: string, photo: Value)
    requires photo.Obj?
    requires UnsetOrTruthy(Prop(photo, "url")) && UnsetOrTruthy(Prop(photo, "signedPath")) && UnsetOrTruthy(Prop(photo, "path"))
    requires RawPath(photo).Str? || !Truthy(RawPath(photo))
    ensures PhotoUrlAt(base, photo) == MigrateMappers.ResolveAttachmentUrl(host, base, photo)
  {
    var candidates := [Prop(photo, "url"), Prop(photo, "signedPath"), Prop(photo, "path")];
    FirstTruthyTriple(candidates[0], candidates[1], candidates[2]);
  }

  /** The attachment of the examples below: a NocoDB download path and no URL. */
  function RelativePhoto(): Value {
    Obj(map["path" := Str("/download/a.jpg")])
  }

  lemma RelativePhotoPath()
    ensures Truthy(RelativePhoto()) && RawPath(RelativePhoto()) == Str("/download/a.jpg")
    ensures !MigrateMappers.IsHttpUrl("/download/a.jpg") && StartsWith("/download/a.jpg", "/")
  {
    SlashNotHttp("/download/a.jpg");
  }

  /** A relative path is joined to whatever URL the page is given. */
  lemma RelativePathAt(base: string)
    ensures PhotoUrlAt(base, RelativePhoto()) == Success(Some(base + "/download/a.jpg"))
  {
    RelativePhotoPath();
    assert base + "" == base;
  }

  /** As written, a relative path is joined to the text `undefined`. */
  lemma RelativePathAsWritten()
    ensures PhotoUrlAsWritten(RelativePhoto()) == Success(Some("undefined" + "/download/a.jpg"))
  {
    RelativePathAt(ImportedNocoUrl);
  }

  /** With the NocoDB URL exported and not configured, it is joined to the default server. */
  lemma RelativePathIntended()
    ensures PhotoUrl(None, RelativePhoto()) == Success(Some("http://docker.home:8020" + "/download/a.jpg"))
  {
    RelativePathAt(NocoDbUrl(None));
  }

  lemma SlashNotHttp(s: string)
    requires |s| > 0 && s[0] == '/'
    ensures !MigrateMappers.IsHttpUrl(s)
  {
    if |s| >= 7 {
      assert s[..7][0] == '/';
    }
  }

  /** With the URL configured, every relative path lies under the configured server. */
  lemma PhotoUrlUnderServer(setting: Option<string>, photo: Value)
    requires PhotoUrl(setting, photo).Success? && PhotoUrl(setting, photo).value.Some?
    requires RawPath(photo).Str? && !MigrateMappers.IsHttpUrl(RawPath(photo).s)
    ensures StartsWith(PhotoUrl(setting, photo).value.value, NocoDbUrl(setting) + "/")
  {
    PhotoUrlCases(NocoDbUrl(setting), photo);
  }
}
