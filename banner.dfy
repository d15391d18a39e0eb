/**
 * The blog banner's credit: a banner string of the shape
 * `path/to/file__author__filename.ext` is taken apart into the image
 * path, the photographer, the photo id and the handle the alt text is
 * derived from. The unseen `capitalize(kebabCaseToPlainText(...))` of
 * `utils/misc` is the parameter `plain`.
 */
module Banner {
  import opened Strings

  const DefaultAlt := "Article banner photo"

  /** What the banner string is taken apart into. */
  datatype Credit = Credit(path: string, author: string, id: string, handle: string)

  /** `(path.split('/').pop() ?? '').split('?')[0]`: the last path segment without its query. */
  function Handle(path: string): (r: string)
    ensures '/' !in r && '?' !in r
  {
    var segments := Split(path, "/");
    var last := Last(segments);
    SplitPieceLacks(path, '/', |segments| - 1);
    SplitFirstLacks(last, "?", '/');
    SplitPieceLacks(last, '?', 0);
    Split(last, "?")[0]
  }

  /** The file name without its query, cut at the first '.'. */
  function PhotoId(rawFilename: string): (r: string)
    ensures '.' !in r && '?' !in r
    ensures StartsWith(rawFilename, r)
  {
    var clean := Split(rawFilename, "?")[0];
    SplitPieceLacks(rawFilename, '?', 0);
    SplitFirstIsPrefix(rawFilename, "?");
    if Contains(clean, ".") then
      SplitPieceLacks(clean, '.', 0);
      SplitFirstLacks(clean, ".", '?');
      SplitFirstIsPrefix(clean, ".");
      Split(clean, ".")[0]
    else
      ContainsChar(clean, '.');
      clean
  }

  /**
   * The decomposition in `Banner`: the pieces between `__` give the path,
   * the author (empty when missing) and the file name, which falls back to
   * the last segment of the path only when there is no third piece.
   */
  function Decompose(banner: string): (c: Credit)
    ensures '.' !in c.id && '?' !in c.id
    ensures '/' !in c.handle && '?' !in c.handle
    ensures c.path == Split(banner, "__")[0]
    ensures c.author == if |Split(banner, "__")| > 1 then Split(banner, "__")[1] else ""
    ensures c.id == PhotoId(if |Split(banner, "__")| > 2 then Split(banner, "__")[2] else c.handle)
    ensures c.handle == Handle(c.path)
  {
    var parts := Split(banner, "__");
    var path := parts[0];
    var author := if |parts| > 1 then parts[1] else "";
    var lastSegment := Handle(path);
    var rawFilename := if |parts| > 2 then parts[2] else lastSegment;
    Credit(path, author, PhotoId(rawFilename), Handle(path))
  }

  /** `Boolean(author && id)` */
  predicate ShowCredit(c: Credit) {
    c.author != "" && c.id != ""
  }

  /** `capitalize(kebabCaseToPlainText(handle)) || 'Article banner photo'` */
  function Alt(c: Credit, plain: string -> string): (r: string)
    ensures plain(c.handle) != "" ==> r == plain(c.handle)
    ensures plain(c.handle) == "" ==> r == DefaultAlt
    ensures r != ""
  {
    if plain(c.handle) != "" then plain(c.handle) else DefaultAlt
  }

  lemma PhotoIdCutsAtDot(name: string, ext: string)
    requires '?' !in name && '?' !in ext && '.' !in name
    ensures PhotoId(name + "." + ext) == name
  {
    SplitFree(name + "." + ext, "?");
    SplitCons(name, ".", ext);
    assert '.' in name + "." + ext by {
      assert (name + "." + ext)[|name|] == '.';
    }
    ContainsChar(name + "." + ext, '.');
  }

  lemma HandleIsLastSegment(a: string, b: string, c: string)
    requires '/' !in a && '/' !in b && '/' !in c && '?' !in c
    ensures Handle(a + "/" + b + "/" + c) == c
  {
    SplitThree(a, b, c, "/");
    SplitFree(c, "?");
  }

  /** A piece with none of the characters the decomposition cuts at. */
  predicate Plain(s: string) {
    '_' !in s && '/' !in s && '?' !in s && '.' !in s
  }

  /** A banner of the expected shape is read back into its parts. */
  lemma DecomposeShape(dir: string, sub: string, file: string, author: string, name: string, ext: string)
    requires Plain(dir) && Plain(sub) && Plain(file) && Plain(author) && Plain(name) && Plain(ext)
    ensures Decompose(dir + "/" + sub + "/" + file + "__" + author + "__" + name + "." + ext)
      == Credit(dir + "/" + sub + "/" + file, author, name, file)
  {
    var path := dir + "/" + sub + "/" + file;
    var raw := name + "." + ext;
    var banner := path + "__" + author + "__" + raw;
    assert banner == dir + "/" + sub + "/" + file + "__" + author + "__" + name + "." + ext;
    SplitThree(path, author, raw, "__");
    var parts := Split(banner, "__");
    assert parts == [path, author, raw];
    PhotoIdCutsAtDot(name, ext);
    HandleIsLastSegment(dir, sub, file);
    var c := Decompose(banner);
    assert c.path == path;
    assert c.author == author;
    assert c.handle == file;
    assert c.id == PhotoId(raw);
  }

  /**
   * Without a third piece the photo id is read off the path's last
   * segment: "dir/name.ext?q" gives the id "name", the handle "name.ext"
   * and, having no author, no credit.
   */
  lemma IdFromPath(dir: string, name: string, ext: string, q: string)
    requires Plain(dir) && Plain(name) && Plain(ext) && '_' !in q && '/' !in q
    ensures Decompose(dir + "/" + name + "." + ext + "?" + q)
      == Credit(dir + "/" + name + "." + ext + "?" + q, "", name, name + "." + ext)
    ensures !ShowCredit(Decompose(dir + "/" + name + "." + ext + "?" + q))
  {
    var file := name + "." + ext;
    var rest := file + "?" + q;
    var banner := dir + "/" + name + "." + ext + "?" + q;
    assert banner == dir + "/" + rest;
    assert '_' !in banner;
    SplitFree(banner, "__");
    assert '/' !in rest;
    SplitTwo(dir, "/", rest);
    assert '?' !in file;
    SplitCons(file, "?", q);
    assert Handle(banner) == file;
    PhotoIdCutsAtDot(name, ext);
  }

  /** An empty third piece is kept (only a missing one falls back), so the id is empty and no credit shows. */
  lemma EmptyFilenameHidesCredit(path: string, author: string)
    requires '_' !in path && '_' !in author
    ensures Decompose(path + "__" + author + "__").id == ""
    ensures !ShowCredit(Decompose(path + "__" + author + "__"))
  {
    var banner := path + "__" + author + "__";
    assert banner == path + "__" + author + "__" + "";
    SplitThree(path, author, "", "__");
    EmptyPhotoId();
  }

  lemma EmptyPhotoId()
    ensures PhotoId("") == ""
  {
    SplitFree("", "?");
  }

  /** A banner with no `__` is all path: no author, so no credit. */
  lemma NoSeparatorNoCredit(banner: string)
    requires !Contains(banner, "__")
    ensures Decompose(banner).path == banner
    ensures Decompose(banner).author == ""
    ensures !ShowCredit(Decompose(banner))
  {
    SplitWithout(banner, "__");
  }

  /** The empty banner gives an empty path, author and id. */
  lemma EmptyBanner()
    ensures Decompose("") == Credit("", "", "", "")
  {
    SplitFree("", "__");
    SplitFree("", "/");
    SplitFree("", "?");
  }
}
