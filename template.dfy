/**
  Template lookup (pss.py:52-63): a user code, trimmed, selects a template
  label; the first of that label's candidate paths that exists is used.
  Whether a path exists is a parameter (`present`), not a filesystem query.
*/
module Template {
  import opened Text
  import opened Wrappers

  /** The label a recognised code stands for: "001" is MOD, "002" is FAR, any other code none. */
  function CodeLabel(code: String): (r: Option<String>)
    ensures r.Some? <==> code == "001" || code == "002"
    ensures r == Some("MOD") <==> code == "001"
    ensures r == Some("FAR") <==> code == "002"
  {
    if code == "001" then Some("MOD")
    else if code == "002" then Some("FAR")
    else None
  }

  /** The places each template is looked for, in the order they are tried. */
  const ModCandidates: seq<String> := ["MOD PSS.docx", "/mnt/data/MOD PSS.docx", "templates/MOD PSS.docx"]
  const FarCandidates: seq<String> := ["FAR PSS.docx", "/mnt/data/FAR PSS.docx", "templates/FAR PSS.docx"]

  /** The candidate list of a label that CodeLabel gives. */
  function Candidates(family: String): (r: seq<String>)
    ensures family == "MOD" ==> r == ModCandidates
    ensures family == "FAR" ==> r == FarCandidates
  {
    if family == "MOD" then ModCandidates else FarCandidates
  }

  /** The first path of `paths` that is present, or `None` when none is. */
  function FirstExisting(paths: seq<String>, present: String -> bool): (r: Option<String>)
    ensures r.Some? ==> r.value in paths && present(r.value)
    ensures r.None? ==> forall i | 0 <= i < |paths| :: !present(paths[i])
  {
    if paths == [] then None
    else if present(paths[0]) then Some(paths[0])
    else FirstExisting(paths[1..], present)
  }

  /** `find_local_template_for_code`: a missing code counts as the empty one. */
  function FindLocalTemplate(code: Option<String>, present: String -> bool): Option<String> {
    match CodeLabel(Strip(code.GetOr("")))
    case None => None
    case Some(family) => FirstExisting(Candidates(family), present)
  }

  /** The result is the present path with no present path before it. */
  lemma {:induction false} FirstExistingIsFirst(paths: seq<String>, present: String -> bool)
    ensures var r := FirstExisting(paths, present);
            r.Some? ==> exists k | 0 <= k < |paths| :: paths[k] == r.value && forall j | 0 <= j < k :: !present(paths[j])
  {
    var r := FirstExisting(paths, present);
    if paths != [] && !present(paths[0]) && r.Some? {
      FirstExistingIsFirst(paths[1..], present);
      var k :| 0 <= k < |paths[1..]| && paths[1..][k] == r.value && forall j | 0 <= j < k :: !present(paths[1..][j]);
      assert paths[k + 1] == r.value;
      forall j | 0 <= j < k + 1 ensures !present(paths[j]) {
        if j > 0 {
          assert paths[j] == paths[1..][j - 1];
        }
      }
    } else if r.Some? {
      assert paths[0] == r.value;
    }
  }

  /**
    Any code other than "001" or "002", once trimmed, finds nothing; a
    recognised one finds a present path among its label's candidates, or
    nothing exactly when none of them is present.
  */
  lemma FindLocalTemplateSpec(code: String, present: String -> bool)
    ensures var r := FindLocalTemplate(Some(code), present);
            (Strip(code) != "001" && Strip(code) != "002" ==> r.None?) &&
            (Strip(code) == "001" ==>
              (r.None? <==> !present("MOD PSS.docx") && !present("/mnt/data/MOD PSS.docx") && !present("templates/MOD PSS.docx")) &&
              (r.Some? ==> r.value in ["MOD PSS.docx", "/mnt/data/MOD PSS.docx", "templates/MOD PSS.docx"] && present(r.value))) &&
            (Strip(code) == "002" ==>
              (r.None? <==> !present("FAR PSS.docx") && !present("/mnt/data/FAR PSS.docx") && !present("templates/FAR PSS.docx")) &&
              (r.Some? ==> r.value in ["FAR PSS.docx", "/mnt/data/FAR PSS.docx", "templates/FAR PSS.docx"] && present(r.value)))
  {
    var r := FindLocalTemplate(Some(code), present);
    if Strip(code) == "001" && r.None? {
      assert forall i | 0 <= i < 3 :: !present(ModCandidates[i]);
    }
    if Strip(code) == "002" && r.None? {
      assert forall i | 0 <= i < 3 :: !present(FarCandidates[i]);
    }
  }

  /** The bundled copy next to the program wins over the other two places. */
  lemma LocalCopyPreferred(present: String -> bool)
    requires present("MOD PSS.docx")
    ensures FindLocalTemplate(Some("001"), present) == Some("MOD PSS.docx")
  {
    assert Strip("001") == "001" by {
      assert "001"[0] == '0' && "001"[2] == '1';
      StripUnpadded("001");
    }
  }

  /** Surrounding white space in the code does not matter, and a missing code is the empty one. */
  lemma FindLocalTemplateTrims(code: String, present: String -> bool)
    ensures FindLocalTemplate(Some(code), present) == FindLocalTemplate(Some(Strip(code)), present)
    ensures FindLocalTemplate(None, present) == FindLocalTemplate(Some([]), present) == None
  {
    StripIdempotent(code);
    StripEmptyIffAllSpace([]);
  }
}
