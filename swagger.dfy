/**
 * pkg/swagger/swagger.go: the file path `ServeSwaggerFile` serves for a URL
 * path, and the `/swagger-ui/` route `ServeSwaggerUI` adds to a mux.
 */
module Swagger {

  import opened Wrappers
  import opened GoStrings
  import opened GoPath

  const SwaggerSuffix := "swagger.json"
  const SwaggerRoute := "/swagger/"
  /** The directory holding the generated `.swagger.json` files, relative to the working directory. */
  const SwaggerDir := "grpc/greeter/helloworld"

  /** What `ServeSwaggerFile` hands to `net/http`: a 404, or `http.ServeFile` of a path. */
  datatype FileResponse = NotFound | ServeFile(path: string)

  /** The URL path with the `/swagger/` route prefix removed, when present. */
  function Trimmed(urlPath: string): string {
    TrimPrefix(urlPath, SwaggerRoute)
  }

  /**
   * `ServeSwaggerFile`: only URL paths ending in `swagger.json` are served, from
   * `SwaggerDir` joined with the path minus its `/swagger/` prefix.
   */
  function ServeSwaggerFile(urlPath: string): (r: FileResponse)
    ensures r.NotFound? <==> !HasSuffix(urlPath, SwaggerSuffix)
    ensures r.ServeFile? ==> HasSuffix(r.path, SwaggerSuffix)
  {
    if !HasSuffix(urlPath, SwaggerSuffix) then NotFound
    else
      ServedFileEndsInSwaggerJson(urlPath);
      ServeFile(Join(SwaggerDir, Trimmed(urlPath)))
  }

  /**
   * Removing `/swagger/` cannot cut into a `swagger.json` suffix: the two
   * strings cannot overlap at the end of a URL path.
   */
  lemma TrimKeepsSuffix(urlPath: string)
    requires HasSuffix(urlPath, SwaggerSuffix)
    ensures HasSuffix(Trimmed(urlPath), SwaggerSuffix)
  {
    var u := urlPath;
    if HasPrefix(u, SwaggerRoute) {
      var k := |u| - |SwaggerSuffix|;
      assert u[..|SwaggerRoute|] == SwaggerRoute;
      assert u[k..] == SwaggerSuffix;
      // the suffix's leading 's' could only sit on the route's 's' at index 1,
      // which would put the suffix's '.' on the route's closing '/'
      assert u[k] == 's' && u[k + 7] == '.';
      assert u[0] == '/' && u[1] == 's' && u[2] == 'w' && u[3] == 'a' && u[4] == 'g';
      assert u[5] == 'g' && u[6] == 'e' && u[7] == 'r' && u[8] == '/';
      assert k != 1;
      assert k >= |SwaggerRoute|;
      var t := u[|SwaggerRoute|..];
      assert t[|t| - |SwaggerSuffix|..] == u[k..];
    }
  }

  lemma SwaggerDirElements()
    ensures Split(SwaggerDir) == ["grpc", "greeter", "helloworld"]
  {
    var parts := ["grpc", "greeter", "helloworld"];
    assert JoinSlash(parts) == SwaggerDir;
    SplitJoin(parts);
  }

  /** `SwaggerDir` is a relative path made of names only. */
  lemma SwaggerDirIsNames()
    ensures SwaggerDir != "" && SwaggerDir[0] != '/'
    ensures forall k :: 0 <= k < |Split(SwaggerDir)| ==> IsName(Split(SwaggerDir)[k])
  {
    SwaggerDirElements();
  }

  /** The last element of a path ending in `swagger.json` is a name ending in `swagger.json`. */
  lemma LastOfSwaggerJsonPath(t: string)
    requires HasSuffix(t, SwaggerSuffix)
    ensures var segs := Split(t);
      IsName(segs[|segs| - 1]) && HasSuffix(segs[|segs| - 1], SwaggerSuffix)
  {
    var w := t[..|t| - |SwaggerSuffix|];
    assert w + SwaggerSuffix == t;
    assert '/' !in SwaggerSuffix;
    SplitLast(w, SwaggerSuffix);
    var last := Split(t)[|Split(t)| - 1];
    var lw := Split(w)[|Split(w)| - 1];
    assert last == lw + SwaggerSuffix;
    assert last[|last| - |SwaggerSuffix|..] == SwaggerSuffix;
  }

  /** The last element of the joined path is the last element of the trimmed path, a name. */
  lemma LastElementIsSwaggerJsonName(t: string)
    requires HasSuffix(t, SwaggerSuffix)
    ensures var segs := Split(SwaggerDir + "/" + t);
      IsName(segs[|segs| - 1]) && HasSuffix(segs[|segs| - 1], SwaggerSuffix)
  {
    LastOfSwaggerJsonPath(t);
    SplitAtSlash(SwaggerDir, t);
  }

  /** A path whose last element is a name ending in `swagger.json` still ends so once cleaned. */
  lemma CleanKeepsSwaggerJson(p: string)
    requires var segs := Split(p);
      IsName(segs[|segs| - 1]) && HasSuffix(segs[|segs| - 1], SwaggerSuffix)
    ensures HasSuffix(Clean(p), SwaggerSuffix)
  {
    CleanKeepsLastName(p);
    var segs := Split(p);
    var last := segs[|segs| - 1];
    var c := Clean(p);
    if c != last {
      SuffixAfterPrefix("/", last, SwaggerSuffix);
      SuffixOfSuffix(c, "/" + last, SwaggerSuffix);
    }
  }

  /** Every served path ends in `swagger.json`. */
  lemma ServedFileEndsInSwaggerJson(urlPath: string)
    requires HasSuffix(urlPath, SwaggerSuffix)
    ensures HasSuffix(Join(SwaggerDir, Trimmed(urlPath)), SwaggerSuffix)
  {
    var t := Trimmed(urlPath);
    TrimKeepsSuffix(urlPath);
    assert t != "";
    LastElementIsSwaggerJsonName(t);
    CleanKeepsSwaggerJson(SwaggerDir + "/" + t);
  }

  /**
   * A served path stays inside `SwaggerDir` when the trimmed URL path has no
   * `..` element.
   */
  lemma ServedFileStaysInDir(urlPath: string)
    requires HasSuffix(urlPath, SwaggerSuffix)
    requires forall k :: 0 <= k < |Split(Trimmed(urlPath))| ==> Split(Trimmed(urlPath))[k] != ".."
    ensures ServeSwaggerFile(urlPath).ServeFile?
    ensures HasPrefix(ServeSwaggerFile(urlPath).path, SwaggerDir + "/")
  {
    var t := Trimmed(urlPath);
    TrimKeepsSuffix(urlPath);
    SwaggerDirIsNames();
    LastOfSwaggerJsonPath(t);
    CleanStaysUnder(SwaggerDir, t);
    assert ServeSwaggerFile(urlPath) == ServeFile(Join(SwaggerDir, t));
  }

  // ---------------------------------------------------------------------------
  // ServeSwaggerUI

  const UIPrefix := "/swagger-ui/"
  /** Where the embedded swagger-ui assets live inside the asset file system. */
  const UIAssetPrefix := "/pkg/swagger/swagger-ui"

  /** The handlers the modelled code registers on an `http.ServeMux`. */
  datatype Handler =
    | FileServer(assetPrefix: string)
    | StripPrefix(prefix: string, inner: Handler)

  /**
   * `http.StripPrefix`: the path the inner handler sees, or `None` when it
   * answers 404 itself because the prefix did not shorten the path. An empty
   * prefix hands the inner handler the request as it is.
   */
  function StripPrefixPath(prefix: string, urlPath: string): (r: Option<string>)
    ensures prefix == "" ==> r == Some(urlPath)
    ensures prefix != "" ==> (r.Some? <==> HasPrefix(urlPath, prefix))
    ensures r.Some? ==> prefix + r.value == urlPath
  {
    if prefix == "" then Some(urlPath)
    else
      var p := TrimPrefix(urlPath, prefix);
      if |p| < |urlPath| then Some(p) else None
  }

  /** An `http.ServeMux`: the patterns registered so far and their handlers. */
  class ServeMux {
    var handlers: map<string, Handler>

    constructor ()
      ensures handlers == map[]
    {
      handlers := map[];
    }

    /** `mux.Handle`; Go panics on an empty or already registered pattern. */
    method Handle(pattern: string, h: Handler)
      requires pattern != "" && pattern !in handlers
      modifies this
      ensures handlers == old(handlers)[pattern := h]
    {
      handlers := handlers[pattern := h];
    }
  }

  /** `ServeSwaggerUI`: registers the asset file server under `/swagger-ui/`, prefix stripped. */
  method ServeSwaggerUI(mux: ServeMux)
    requires UIPrefix !in mux.handlers
    modifies mux
    ensures mux.handlers == old(mux.handlers)[UIPrefix := StripPrefix(UIPrefix, FileServer(UIAssetPrefix))]
  {
    var fileServer := FileServer(UIAssetPrefix);
    var prefix := UIPrefix;
    mux.Handle(prefix, StripPrefix(prefix, fileServer));
  }
}
