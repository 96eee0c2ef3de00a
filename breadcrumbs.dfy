/** `generateBreadcrumbs` of `Breadcrumbs.tsx`: the location's path is cut into its non-empty
    segments, and each segment becomes a crumb whose label comes from the route table (or is the
    segment capitalised, or "Detalle" for a UUID) and whose link is the path up to that segment;
    the last crumb, the current page, has no link. */
module Breadcrumbs {
  import opened Base
  import Text

  /** `{ label, href? }` (`label` is a Dafny keyword, hence `text`): `href` absent for the current page. */
  datatype Crumb = Crumb(text: string, href: Option<string>)

  /** `routeLabels`: the Spanish label of each known route segment. */
  const RouteLabels: map<string, string> := map[
    "products" := "Productos",
    "new" := "Nuevo",
    "edit" := "Editar",
    "categories" := "Categorías",
    "carousels" := "Carruseles",
    "storefront" := "Apariencia",
    "content" := "Contenido",
    "faq" := "Preguntas Frecuentes",
    "terms" := "Términos y Condiciones",
    "tools" := "Herramientas",
    "import-csv" := "Importar CSV",
    "import-dbf" := "Convertir DBF",
    "bulk-images" := "Imágenes Masivas"
  ]

  // ---- Segments ----

  /** `s.split('/')`: the pieces between slashes, empty ones included; never an empty list. */
  function SplitSlash(s: string): (r: seq<string>)
    ensures |r| >= 1
    ensures forall i :: 0 <= i < |r| ==> '/' !in r[i]
    decreases |s|
  {
    if |s| == 0 then [""]
    else
      var rest := SplitSlash(s[1..]);
      if s[0] == '/' then [""] + rest
      else [[s[0]] + rest[0]] + rest[1..]
  }

  /** Splitting loses nothing: joining the pieces with '/' gives the string back. */
  lemma {:induction false} SplitSlashJoins(s: string)
    ensures Join(SplitSlash(s), "/") == s
    decreases |s|
  {
    if |s| > 0 {
      var rest := SplitSlash(s[1..]);
      SplitSlashJoins(s[1..]);
      if s[0] == '/' {
        assert ([""] + rest)[1..] == rest;
        assert s == [s[0]] + s[1..];
      } else {
        var first := [s[0]] + rest[0];
        if |rest| == 1 {
          assert Join(rest, "/") == rest[0];
          assert s == [s[0]] + s[1..];
        } else {
          var parts := [first] + rest[1..];
          assert parts[0] == first && parts[1..] == rest[1..];
          assert Join(rest, "/") == rest[0] + "/" + Join(rest[1..], "/");
          assert Join(parts, "/") == first + "/" + Join(rest[1..], "/");
          assert s == [s[0]] + s[1..];
        }
      }
    }
  }

  /** `.filter(Boolean)`: the non-empty strings, in order. */
  function NonEmpty(parts: seq<string>): (r: seq<string>)
    ensures |r| <= |parts|
    ensures forall x :: x in r <==> x in parts && x != ""
  {
    if |parts| == 0 then []
    else (if parts[0] == "" then [] else [parts[0]]) + NonEmpty(parts[1..])
  }

  /** `pathname.split('/').filter(Boolean)`. */
  function Segments(pathname: string): (r: seq<string>)
    ensures forall i :: 0 <= i < |r| ==> r[i] != "" && '/' !in r[i]
  {
    var r := NonEmpty(SplitSlash(pathname));
    assert forall i :: 0 <= i < |r| ==> r[i] in r;
    r
  }

  /** The path of the root and the empty path have no segments. */
  lemma RootHasNoSegments()
    ensures Segments("") == [] && Segments("/") == []
  {
    assert SplitSlash("") == [""];
    assert "/"[1..] == "";
    assert SplitSlash("/") == ["", ""];
    assert NonEmpty([""]) == [] by {
      assert [""][1..] == [];
    }
    assert ["", ""][1..] == [""];
  }

  /** `currentPath` after the given segments: "/" before each one. */
  function PathTo(segs: seq<string>): string
  {
    if |segs| == 0 then "" else "/" + segs[0] + PathTo(segs[1..])
  }

  lemma {:induction false} PathToAppend(segs: seq<string>, x: string)
    ensures PathTo(segs + [x]) == PathTo(segs) + "/" + x
  {
    if |segs| == 0 {
      assert [x][1..] == [];
      assert PathTo([x]) == "/" + x + "";
    } else {
      assert (segs + [x])[0] == segs[0] && (segs + [x])[1..] == segs[1..] + [x];
      PathToAppend(segs[1..], x);
    }
  }

  /** A non-empty path is "/" followed by its segments joined with "/". */
  lemma {:induction false} PathToIsJoin(segs: seq<string>)
    requires |segs| > 0
    ensures PathTo(segs) == "/" + Join(segs, "/")
  {
    if |segs| > 1 {
      PathToIsJoin(segs[1..]);
    } else {
      assert PathTo(segs[1..]) == "";
    }
  }

  lemma {:induction false} SplitWord(w: string, t: string)
    requires '/' !in w
    ensures SplitSlash(w + t) == [w + SplitSlash(t)[0]] + SplitSlash(t)[1..]
    decreases |w|
  {
    if |w| > 0 {
      assert (w + t)[0] == w[0] && (w + t)[1..] == w[1..] + t;
      SplitWord(w[1..], t);
      assert [w[0]] + (w[1..] + SplitSlash(t)[0]) == w + SplitSlash(t)[0];
    } else {
      var r := SplitSlash(t);
      assert w + t == t && w + r[0] == r[0];
      assert r == [r[0]] + r[1..];
    }
  }

  lemma {:induction false} SplitPath(segs: seq<string>)
    requires forall i :: 0 <= i < |segs| ==> '/' !in segs[i]
    ensures SplitSlash(PathTo(segs)) == [""] + segs
  {
    if |segs| > 0 {
      var rest := PathTo(segs[1..]);
      SplitPath(segs[1..]);
      assert PathTo(segs) == "/" + (segs[0] + rest);
      assert ("/" + (segs[0] + rest))[1..] == segs[0] + rest;
      SplitWord(segs[0], rest);
      assert segs[0] + "" == segs[0];
      assert segs == [segs[0]] + segs[1..];
    }
  }

  lemma {:induction false} NonEmptyKeeps(parts: seq<string>)
    requires forall i :: 0 <= i < |parts| ==> parts[i] != ""
    ensures NonEmpty(parts) == parts
  {
    if |parts| > 0 {
      NonEmptyKeeps(parts[1..]);
    }
  }

  /** Segments round trip: the path built from well-formed segments splits back into them. */
  lemma SegmentsOfPath(segs: seq<string>)
    requires forall i :: 0 <= i < |segs| ==> segs[i] != "" && '/' !in segs[i]
    ensures Segments(PathTo(segs)) == segs
  {
    SplitPath(segs);
    assert ([""] + segs)[0] == "" && ([""] + segs)[1..] == segs;
    NonEmptyKeeps(segs);
  }

  // ---- Labels ----

  predicate IsHexDigit(c: char)
  {
    '0' <= c <= '9' || 'a' <= c <= 'f' || 'A' <= c <= 'F'
  }

  /** The case-insensitive pattern `^[0-9a-f]{8}-[0-9a-f]{4}-[0-9a-f]{4}-[0-9a-f]{4}-[0-9a-f]{12}$`. */
  predicate IsUuid(s: string)
  {
    |s| == 36
    && forall i :: 0 <= i < 36 ==>
      if i == 8 || i == 13 || i == 18 || i == 23 then s[i] == '-' else IsHexDigit(s[i])
  }

  /** `segment.charAt(0).toUpperCase() + segment.slice(1)`. */
  function Capitalize(s: string): (r: string)
    ensures |r| == |s|
    ensures |s| > 0 ==> r[0] == Text.UpperChar(s[0]) && r[1..] == s[1..]
  {
    if |s| == 0 then "" else [Text.UpperChar(s[0])] + s[1..]
  }

  /** The label of a segment: "Detalle" for a UUID, else the route table's entry, else the
      segment capitalised. */
  function Label(segment: string): string
  {
    if IsUuid(segment) then "Detalle"
    else if segment in RouteLabels then RouteLabels[segment]
    else Capitalize(segment)
  }

  /** The three ways a segment gets its label. No route key is a UUID, so a listed segment always
      gets its table entry; a crumb label is never empty. */
  lemma LabelCases(segment: string)
    requires segment != ""
    ensures IsUuid(segment) ==> Label(segment) == "Detalle"
    ensures segment in RouteLabels ==> Label(segment) == RouteLabels[segment]
    ensures !IsUuid(segment) && segment !in RouteLabels ==>
      Label(segment)[0] == Text.UpperChar(segment[0]) && Label(segment)[1..] == segment[1..]
    ensures Label(segment) != ""
  {
    if segment in RouteLabels {
      assert !IsUuid(segment) by {
        assert |segment| < 36;
      }
    }
  }

  // ---- The crumbs ----

  /** The crumbs of a list of segments: one per segment, the i-th linking to the path of the
      first i + 1 segments except the last, which has no link. */
  function Trail(segs: seq<string>): (r: seq<Crumb>)
    ensures |r| == |segs|
    ensures forall i :: 0 <= i < |segs| ==> r[i].text == Label(segs[i])
    ensures forall i :: 0 <= i < |segs| ==> (r[i].href.None? <==> i == |segs| - 1)
  {
    seq(|segs|, i requires 0 <= i < |segs| =>
      Crumb(Label(segs[i]), if i == |segs| - 1 then None else Some(PathTo(segs[..i + 1]))))
  }

  /** Every link is "/" followed by the segments up to its crumb joined with "/". */
  lemma TrailLinks(segs: seq<string>, i: nat)
    requires i < |segs| - 1
    ensures Trail(segs)[i].href == Some("/" + Join(segs[..i + 1], "/"))
  {
    PathToIsJoin(segs[..i + 1]);
  }

  /** `generateBreadcrumbs(pathname)`: a loop over the segments that extends `currentPath` and
      pushes one crumb at a time. */
  method GenerateBreadcrumbs(pathname: string) returns (breadcrumbs: seq<Crumb>)
    ensures breadcrumbs == Trail(Segments(pathname))
  {
    var segments := Segments(pathname);
    breadcrumbs := BuildTrail(segments);
  }

  /** The `forEach` over the segments. */
  method BuildTrail(segments: seq<string>) returns (breadcrumbs: seq<Crumb>)
    ensures breadcrumbs == Trail(segments)
  {
    breadcrumbs := [];
    var currentPath := "";
    var index := 0;
    while index < |segments|
      invariant 0 <= index <= |segments|
      invariant currentPath == PathTo(segments[..index])
      invariant breadcrumbs == Trail(segments)[..index]
    {
      var segment := segments[index];
      PathToAppend(segments[..index], segment);
      TakeOneMore(segments, index);
      currentPath := currentPath + "/" + segment;
      var isLast := index == |segments| - 1;
      var crumb := MakeCrumb(segment, isLast, currentPath);
      breadcrumbs := breadcrumbs + [crumb];
      assert Trail(segments)[..index + 1] == Trail(segments)[..index] + [Trail(segments)[index]];
      index := index + 1;
    }
  }

  lemma TakeOneMore<T>(s: seq<T>, i: nat)
    requires i < |s|
    ensures s[..i] + [s[i]] == s[..i + 1]
  {
  }

  /** The body of the loop: a UUID segment is shown as "Detalle", any other by its label; only
      the last crumb goes without a link. */
  method MakeCrumb(segment: string, isLast: bool, currentPath: string) returns (crumb: Crumb)
    ensures crumb == Crumb(Label(segment), if isLast then None else Some(currentPath))
  {
    var href := if isLast then None else Some(currentPath);
    if !IsUuid(segment) {
      var text := if segment in RouteLabels then RouteLabels[segment] else Capitalize(segment);
      crumb := Crumb(text, href);
    } else {
      crumb := Crumb("Detalle", href);
    }
  }

  /** The trail of a path has one crumb per segment, and a path built from segments gives back
      one crumb per segment with the labels of those segments. */
  lemma TrailOfPath(segs: seq<string>)
    requires forall i :: 0 <= i < |segs| ==> segs[i] != "" && '/' !in segs[i]
    ensures |Trail(Segments(PathTo(segs)))| == |segs|
    ensures forall i :: 0 <= i < |segs| ==> Trail(Segments(PathTo(segs)))[i].text == Label(segs[i])
  {
    SegmentsOfPath(segs);
  }

  /** The root path has no crumbs. */
  lemma RootHasNoCrumbs()
    ensures Trail(Segments("/")) == [] && Trail(Segments("")) == []
  {
    RootHasNoSegments();
  }
}
