/** process_parameters of step0.py: the checks on a parameter dictionary,
    the normalisation of `registration`, the choice of the image extension
    and of the volume names from a directory listing, and the derived
    fields added to the copy that is saved. The listing of dir_input and
    whether dir_output/parameters.pickle exists come in as values; the
    dictionary is a value, so the caller's dictionary is never changed. */
module Parameters {
  import opened Ordering
  import opened Text

  /** A parameter value, tagged by the dynamic type the checks look at. */
  datatype Value =
    | Str(s: string)
    | Num(x: real)
    | NoneValue
    | Names(names: seq<string>)
    | Matrix(rows: seq<seq<real>>)
    | Path(p: string)       // an os.PathLike object such as pathlib.Path
    | Bytes(b: seq<bv8>)    // a bytes object: a scalar, but not a str
    | Tuple(len: nat)       // a tuple: only its length matters to the checks
    | Other  // any other object: not a scalar, not a string, not a path, not a tuple

  datatype Input = Dict(entries: map<string, Value>) | NotADict

  /** Why a call printed an error and returned without saving. */
  datatype Reason =
    | NotADictionary
    | MissingKeys(keys: set<string>)
    | ParameterFileExists
    | NotAPlainString(key: string)
    | NotANonNegativeInteger(key: string)
    | NotANonNegativeReal(key: string)
    | BadRegistration
    | PlanesPadWithoutRegistration

  /** Exceptions the code lets escape. */
  datatype Error = TypeError | IndexError

  datatype Outcome = Rejected(reason: Reason) | Raised(error: Error) | Saved(params: map<string, Value>)

  const DirKeys: seq<string> := ["dir_ants", "dir_input", "dir_output", "registration"]
  const IntKeys: seq<string> := ["ds", "n_cells_block", "n_colors", "nt", "planes_pad"]
  const RealKeys: seq<string> := ["diam_cell", "f_hipass", "f_volume", "res_x", "res_y", "res_z",
                                  "t_baseline", "t_section", "thr_mask"]
  const DerivedKeys: set<string> := {"volume_names", "ext", "lt", "affine_mat"}

  /** The keys of parameter_dictionary(): the ones the checks read, and
      `otherKeys`. */
  function Schema(otherKeys: set<string>): (keys: set<string>)
    ensures forall k :: k in DirKeys || k in IntKeys || k in RealKeys ==> k in keys
  {
    {"dir_ants", "dir_input", "dir_output", "registration",
     "ds", "n_cells_block", "n_colors", "nt", "planes_pad",
     "diam_cell", "f_hipass", "f_volume", "res_x", "res_y", "res_z", "t_baseline", "t_section", "thr_mask"} + otherKeys
  }

  datatype Check = Pass | Fail | Crash

  /** A value whose error message cannot be formatted: `'%s' % v` takes
      the items of a tuple as the arguments of its one `%s`, and raises
      TypeError unless there is exactly one. */
  predicate Unprintable(v: Value) {
    v.Tuple? && v.len != 1
  }

  /** isinstance(v, str) and not ' ' in v; a failing value is printed. */
  function DirCheck(v: Value): Check {
    if v.Str? && ' ' !in v.s then Pass
    else if Unprintable(v) then Crash
    else Fail
  }

  predicate Integral(x: real) {
    x == x.Floor as real
  }

  /** A str or bytes value is a scalar to np.isscalar, and comparing it
      with 0 raises TypeError. */
  predicate StringLike(v: Value) {
    v.Str? || v.Bytes?
  }

  /** np.isscalar(v) and v >= 0 and v == np.round(v). None, paths, tuples
      and the other objects are not scalars; a failing value is printed. */
  function IntCheck(v: Value): Check {
    match v
    case Num(x) => if x >= 0.0 && Integral(x) then Pass else Fail
    case _ => if StringLike(v) || Unprintable(v) then Crash else Fail
  }

  /** np.isscalar(v) and v >= 0 and np.isreal(v). */
  function RealCheck(v: Value): Check {
    match v
    case Num(x) => if x >= 0.0 then Pass else Fail
    case _ => if StringLike(v) || Unprintable(v) then Crash else Fail
  }

  /** os.path.join(v, 'parameters.pickle') returns: v is a str or an
      os.PathLike object. Any other value raises TypeError. */
  predicate Joinable(v: Value) {
    v.Str? || v.Path?
  }

  datatype Scan = AllPass | Failed(key: string) | Crashed(key: string)

  /** The loops of step0.py:38-57: the first of `keys` whose value does
      not pass decides. */
  function ScanKeys(entries: map<string, Value>, keys: seq<string>, check: Value -> Check): (r: Scan)
    requires forall k :: k in keys ==> k in entries
    ensures r == AllPass <==> forall k :: k in keys ==> check(entries[k]) == Pass
    ensures r.Failed? ==> r.key in keys && check(entries[r.key]) == Fail
    ensures r.Crashed? ==> r.key in keys && check(entries[r.key]) == Crash
  {
    if keys == [] then AllPass
    else
      match check(entries[keys[0]])
      case Fail => Failed(keys[0])
      case Crash => Crashed(keys[0])
      case Pass =>
        assert forall k :: k in keys ==> k == keys[0] || k in keys[1..];
        ScanKeys(entries, keys[1..], check)
  }

  /** The key reported is the first one that does not pass. */
  lemma {:induction false} ScanKeysFirst(entries: map<string, Value>, keys: seq<string>, check: Value -> Check)
    requires forall k :: k in keys ==> k in entries
    ensures var r := ScanKeys(entries, keys, check);
            !r.AllPass? ==> exists i :: 0 <= i < |keys| && keys[i] == r.key &&
                                        forall j :: 0 <= j < i ==> check(entries[keys[j]]) == Pass
  {
    if keys != [] && check(entries[keys[0]]) == Pass {
      var r := ScanKeys(entries, keys[1..], check);
      ScanKeysFirst(entries, keys[1..], check);
      if !r.AllPass? {
        var i :| 0 <= i < |keys[1..]| && keys[1..][i] == r.key &&
                 forall j :: 0 <= j < i ==> check(entries[keys[1..][j]]) == Pass;
        assert keys[i + 1] == r.key;
        forall j | 0 <= j < i + 1 ensures check(entries[keys[j]]) == Pass {
          if j > 0 {
            assert keys[j] == keys[1..][j - 1];
          }
        }
      }
    }
  }

  /** The registration value once step0.py:60-63 have run on a string. */
  function NormalisedRegistration(s: string): Value {
    if s == "" then Str(s)
    else if Lower(s) == "none" then NoneValue
    else Str(Lower(s))
  }

  /** `not parameters['registration']` for the values it can hold there. */
  predicate Falsy(v: Value) {
    v == NoneValue || v == Str("")
  }

  /** The registration string step0.py:60-66 lets through. */
  predicate RegistrationOk(s: string) {
    s == "" || Lower(s) in ["none", "high", "medium", "low"]
  }

  /** Every key the checks of step0.py:38-57 read is present. */
  predicate HasCheckedKeys(e: map<string, Value>) {
    (forall k :: k in DirKeys ==> k in e) && (forall k :: k in IntKeys ==> k in e) &&
    (forall k :: k in RealKeys ==> k in e)
  }

  /** The three loops of step0.py:38-57 all run to their end. */
  predicate FieldsOk(e: map<string, Value>)
    requires HasCheckedKeys(e)
  {
    ScanKeys(e, DirKeys, DirCheck).AllPass? && ScanKeys(e, IntKeys, IntCheck).AllPass? &&
    ScanKeys(e, RealKeys, RealCheck).AllPass?
  }

  /** Passing the checks means: the four directory-like fields are strings
      without spaces, the integer fields non-negative whole numbers and the
      real fields non-negative numbers. */
  lemma FieldsOkMeans(e: map<string, Value>)
    requires HasCheckedKeys(e)
    ensures FieldsOk(e) <==>
              (forall k :: k in DirKeys ==> e[k].Str? && ' ' !in e[k].s) &&
              (forall k :: k in IntKeys ==> e[k].Num? && e[k].x >= 0.0 && Integral(e[k].x)) &&
              (forall k :: k in RealKeys ==> e[k].Num? && e[k].x >= 0.0)
  {
    ScanMeaning(e, DirKeys, DirCheck);
    ScanMeaning(e, IntKeys, IntCheck);
    ScanMeaning(e, RealKeys, RealCheck);
    PassingMeans(e, DirKeys, IntKeys, RealKeys);
  }

  lemma PassingMeans(e: map<string, Value>, dirKeys: seq<string>, intKeys: seq<string>, realKeys: seq<string>)
    requires forall k :: k in dirKeys || k in intKeys || k in realKeys ==> k in e
    ensures AllPassing(e, dirKeys, DirCheck) <==> forall k :: k in dirKeys ==> e[k].Str? && ' ' !in e[k].s
    ensures AllPassing(e, intKeys, IntCheck) <==>
              forall k :: k in intKeys ==> e[k].Num? && e[k].x >= 0.0 && Integral(e[k].x)
    ensures AllPassing(e, realKeys, RealCheck) <==> forall k :: k in realKeys ==> e[k].Num? && e[k].x >= 0.0
  {
  }

  /** The fields read after the checks are present, with the right tags. */
  predicate CheckedFields(e: map<string, Value>) {
    "registration" in e && e["registration"].Str? &&
    "planes_pad" in e && e["planes_pad"].Num? && Resolved(e)
  }

  /** The fields the affine matrix is built from are numbers. */
  predicate Resolved(e: map<string, Value>) {
    "ds" in e && e["ds"].Num? &&
    "res_x" in e && e["res_x"].Num? && "res_y" in e && e["res_y"].Num? && "res_z" in e && e["res_z"].Num?
  }

  lemma FieldsOkChecked(e: map<string, Value>)
    requires HasCheckedKeys(e) && FieldsOk(e)
    ensures CheckedFields(e)
  {
    ScanMeaning(e, DirKeys, DirCheck);
    ScanMeaning(e, IntKeys, IntCheck);
    ScanMeaning(e, RealKeys, RealCheck);
    PassingMeans(e, DirKeys, IntKeys, RealKeys);
    assert "registration" in DirKeys && "planes_pad" in IntKeys && "ds" in IntKeys;
    assert "res_x" in RealKeys && "res_y" in RealKeys && "res_z" in RealKeys;
  }

  /** The checks of step0.py:60-71 on registration and planes_pad pass. */
  predicate RegistrationAccepted(e: map<string, Value>)
    requires CheckedFields(e)
  {
    RegistrationOk(e["registration"].s) &&
    (Falsy(NormalisedRegistration(e["registration"].s)) ==> e["planes_pad"] == Num(0.0))
  }

  /** Every check of step0.py:15-71 passes. */
  predicate Acceptable(e: map<string, Value>, otherKeys: set<string>, fileExists: bool) {
    Schema(otherKeys) <= e.Keys && !fileExists &&
    (SchemaHasCheckedKeys(e, otherKeys); FieldsOk(e) && (FieldsOkChecked(e); RegistrationAccepted(e)))
  }

  lemma SchemaHasCheckedKeys(e: map<string, Value>, otherKeys: set<string>)
    requires Schema(otherKeys) <= e.Keys
    ensures HasCheckedKeys(e)
  {
  }

  /** The suffixes after the first '.' of the listed names that hold one,
      in listing order: the second column of zip(*file_names). */
  function Suffixes(listing: seq<string>): seq<string> {
    if listing == [] then []
    else
      var n := listing[|listing| - 1];
      var front := Suffixes(listing[..|listing| - 1]);
      if '.' in n then front + [SplitFirstDot(n).1] else front
  }

  /** A suffix is collected exactly when some listed name with a '.' has
      it after its first '.'. */
  lemma {:induction false} SuffixesMembers(listing: seq<string>, t: string)
    ensures t in Suffixes(listing) <==> exists n :: n in listing && '.' in n && SplitFirstDot(n).1 == t
  {
    if listing != [] {
      var rest := listing[..|listing| - 1];
      SuffixesMembers(rest, t);
      assert listing == rest + [listing[|listing| - 1]];
    }
  }

  /** There is no suffix (and step0.py:75 raises) exactly when no listed
      name holds a '.'. */
  lemma NoSuffixes(listing: seq<string>)
    ensures Suffixes(listing) == [] <==> forall n :: n in listing ==> '.' !in n
  {
    if Suffixes(listing) != [] {
      SuffixesMembers(listing, Suffixes(listing)[0]);
    }
    if exists n :: n in listing && '.' in n {
      var n :| n in listing && '.' in n;
      SuffixesMembers(listing, SplitFirstDot(n).1);
    }
  }


  /** The stems of the listed names whose '.' + suffix equals ext, in
      listing order (step0.py:77 before the sort). */
  function StemsWith(listing: seq<string>, ext: string): seq<string> {
    if listing == [] then []
    else
      var n := listing[|listing| - 1];
      var front := StemsWith(listing[..|listing| - 1], ext);
      if '.' in n && "." + SplitFirstDot(n).1 == ext then front + [SplitFirstDot(n).0] else front
  }

  /** A stem is listed for ext = '.' + m exactly when stem + '.' + m is a
      listed name and the stem holds no '.'. */
  lemma {:induction false} StemsWithMembers(listing: seq<string>, m: string, stem: string)
    ensures stem in StemsWith(listing, "." + m) <==> (stem + "." + m) in listing && '.' !in stem
  {
    if listing != [] {
      var n := listing[|listing| - 1];
      var rest := listing[..|listing| - 1];
      StemsWithMembers(rest, m, stem);
      assert listing == rest + [n];
      if '.' in n {
        var parts := SplitFirstDot(n);
        assert ("." + parts.1 == "." + m) <==> parts.1 == m by {
          if "." + parts.1 == "." + m {
            assert parts.1 == ("." + parts.1)[1..];
          }
        }
        if n == stem + "." + m && '.' !in stem {
          SplitFirstDotUnique(n, stem, m);
        }
      }
    }
  }

  /** np.argmax: the first position of the greatest count. */
  function ArgMax(counts: seq<nat>): (i: nat)
    requires counts != []
    ensures i < |counts|
    ensures forall j :: 0 <= j < |counts| ==> counts[j] <= counts[i]
    ensures forall j :: 0 <= j < i ==> counts[j] < counts[i]
  {
    if |counts| == 1 then 0
    else
      var front := counts[..|counts| - 1];
      var i := ArgMax(front);
      assert forall j :: 0 <= j < |front| ==> front[j] == counts[j];
      if counts[|counts| - 1] > counts[i] then |counts| - 1 else i
  }

  /** file_exts[np.argmax(counts)] of step0.py:75-76. */
  function Majority(suffixes: seq<string>): string
    requires suffixes != []
  {
    LexLessIsStrictTotalOrder();
    var exts := Unique(suffixes, LexLess);
    assert suffixes[0] in exts;
    exts[ArgMax(Counts(suffixes, exts))]
  }

  /** The chosen suffix is a listed one that occurs at least as often as
      any other; among equally frequent suffixes it is the
      lexicographically smallest. */
  lemma MajorityIsMostFrequent(suffixes: seq<string>)
    requires suffixes != []
    ensures Majority(suffixes) in suffixes
    ensures forall t :: t in suffixes ==> multiset(suffixes)[t] <= multiset(suffixes)[Majority(suffixes)]
    ensures forall t :: t in suffixes && t != Majority(suffixes) && multiset(suffixes)[t] == multiset(suffixes)[Majority(suffixes)] ==>
              LexLess(Majority(suffixes), t)
  {
    LexLessIsStrictTotalOrder();
    var exts := Unique(suffixes, LexLess);
    assert suffixes[0] in exts;
    forall t | t in suffixes
      ensures multiset(suffixes)[t] <= multiset(suffixes)[Majority(suffixes)]
      ensures t != Majority(suffixes) && multiset(suffixes)[t] == multiset(suffixes)[Majority(suffixes)] ==>
                LexLess(Majority(suffixes), t)
    {
      MostFrequentAmong(suffixes, exts, t);
    }
  }

  /** The argmax over the distinct suffixes in ascending order is a most
      frequent one, and the smallest among the equally frequent. */
  lemma MostFrequentAmong(suffixes: seq<string>, exts: seq<string>, t: string)
    requires StrictlySorted(exts, LexLess) && forall x :: x in exts <==> x in suffixes
    requires t in suffixes
    ensures var m := exts[ArgMax(Counts(suffixes, exts))];
            multiset(suffixes)[t] <= multiset(suffixes)[m] &&
            (t != m && multiset(suffixes)[t] == multiset(suffixes)[m] ==> LexLess(m, t))
  {
    var counts := Counts(suffixes, exts);
    var i := ArgMax(counts);
    var j :| 0 <= j < |exts| && exts[j] == t;
    assert counts[j] == multiset(suffixes)[t];
    if t != exts[i] && counts[j] == counts[i] {
      assert !(j < i);
      assert i < j;
    }
  }

  /** np.diag(diag). */
  function Diagonal(diag: seq<real>): (m: seq<seq<real>>)
    ensures |m| == |diag|
    ensures forall i :: 0 <= i < |diag| ==> |m[i]| == |diag|
    ensures forall i, j :: 0 <= i < |diag| && 0 <= j < |diag| ==> m[i][j] == if i == j then diag[i] else 0.0
  {
    seq(|diag|, i requires 0 <= i < |diag| => seq(|diag|, j requires 0 <= j < |diag| => if i == j then diag[i] else 0.0))
  }

  /** The four fields step0.py:74-90 add, computed from the listing and
      from the resolutions and ds of e. */
  predicate DerivedFrom(p: map<string, Value>, e: map<string, Value>, listing: seq<string>)
    requires Resolved(e) && Suffixes(listing) != []
  {
    var ext := "." + Majority(Suffixes(listing));
    var names := SortNames(StemsWith(listing, ext));
    DerivedKeys <= p.Keys &&
    p["ext"] == Str(ext) &&
    p["volume_names"] == Names(names) &&
    p["lt"] == Num(|names| as real) &&
    p["affine_mat"] == Matrix(AffineOf(e))
  }

  /** np.diag of step0.py:81-84: res_x and res_y scaled by ds, res_z, 1. */
  function AffineOf(e: map<string, Value>): seq<seq<real>>
    requires Resolved(e)
  {
    Affine(e["res_x"].x, e["res_y"].x, e["res_z"].x, e["ds"].x)
  }

  function Affine(resX: real, resY: real, resZ: real, ds: real): seq<seq<real>> {
    Diagonal([resX * ds, resY * ds, resZ, 1.0])
  }

  /** The copy with the four fields of step0.py:87-90 set. */
  function WithDerived(c: map<string, Value>, names: seq<string>, ext: string, affine: seq<seq<real>>): (p: map<string, Value>)
    ensures p.Keys == c.Keys + DerivedKeys
    ensures forall k :: k in c && k !in DerivedKeys ==> p[k] == c[k]
    ensures p["volume_names"] == Names(names) && p["ext"] == Str(ext) &&
            p["lt"] == Num(|names| as real) && p["affine_mat"] == Matrix(affine)
  {
    c["volume_names" := Names(names)]["ext" := Str(ext)]["lt" := Num(|names| as real)]["affine_mat" := Matrix(affine)]
  }

  /** What the saved copy holds: every field of e but registration
      unchanged, registration normalised, and the four derived fields. */
  predicate SavedFrom(p: map<string, Value>, e: map<string, Value>, listing: seq<string>)
    requires CheckedFields(e)
  {
    Suffixes(listing) != [] &&
    p.Keys == e.Keys + DerivedKeys &&
    (forall k :: k in e && k != "registration" && k !in DerivedKeys ==> p[k] == e[k]) &&
    p["registration"] == NormalisedRegistration(e["registration"].s) &&
    DerivedFrom(p, e, listing)
  }

  /** An accepted registration ends up None, empty, or one of the three
      levels. */
  lemma NormalisedRegistrationValues(s: string)
    requires RegistrationOk(s)
    ensures NormalisedRegistration(s) in {NoneValue, Str(""), Str("high"), Str("medium"), Str("low")}
  {
  }

  /** step0.py:60-66 on the copy: a non-empty registration string is
      lower-cased, 'none' becomes None, and anything else but the three
      levels is refused. */
  method NormaliseRegistration(e: map<string, Value>) returns (parameters: map<string, Value>, accepted: bool)
    requires "registration" in e && e["registration"].Str?
    ensures accepted <==> RegistrationOk(e["registration"].s)
    ensures accepted ==> parameters == e["registration" := NormalisedRegistration(e["registration"].s)]
  {
    parameters := e;
    var registration := parameters["registration"].s;
    if registration != "" {
      parameters := parameters["registration" := Str(Lower(registration))];
      if parameters["registration"] == Str("none") {
        parameters := parameters["registration" := NoneValue];
      } else if parameters["registration"].s !in ["high", "medium", "low"] {
        return parameters, false;
      }
    }
    return parameters, true;
  }

  /** Setting registration leaves planes_pad, ds and the resolutions. */
  lemma SetRegistration(e: map<string, Value>, r: Value)
    requires CheckedFields(e)
    ensures Resolved(e["registration" := r])
    ensures e["registration" := r]["planes_pad"] == e["planes_pad"] && e["registration" := r]["ds"] == e["ds"]
    ensures AffineOf(e["registration" := r]) == AffineOf(e)
  {
    assert "planes_pad" != "registration" && "ds" != "registration";
    assert "res_x" != "registration" && "res_y" != "registration" && "res_z" != "registration";
  }

  /** step0.py:74-90 on the copy: the extension is '.' + the most frequent
      suffix, the volume names the sorted stems carrying it, lt their
      number and affine_mat the diagonal of the scaled resolutions. */
  method DeriveFields(parameters: map<string, Value>, listing: seq<string>) returns (p: map<string, Value>)
    requires Resolved(parameters) && Suffixes(listing) != []
    ensures p.Keys == parameters.Keys + DerivedKeys
    ensures forall k :: k in parameters && k !in DerivedKeys ==> p[k] == parameters[k]
    ensures DerivedFrom(p, parameters, listing)
  {
    var ext := "." + Majority(Suffixes(listing));
    var volumeNames := SortNames(StemsWith(listing, ext));
    var affine := AffineOf(parameters);
    p := WithDerived(parameters, volumeNames, ext, affine);
  }

  /** step0.py:59-90 once the field checks have passed: registration is
      normalised and checked, planes_pad is checked, and the derived fields
      are added; an empty set of suffixes makes step0.py:75 raise. */
  method CompleteParameters(e: map<string, Value>, listing: seq<string>) returns (out: Outcome)
    requires CheckedFields(e)
    ensures out.Rejected? <==> !RegistrationAccepted(e)
    ensures out.Rejected? ==>
              out.reason == if RegistrationOk(e["registration"].s) then PlanesPadWithoutRegistration else BadRegistration
    ensures out.Raised? <==> RegistrationAccepted(e) && Suffixes(listing) == []
    ensures out.Raised? ==> out.error == IndexError
    ensures out.Saved? ==> SavedFrom(out.params, e, listing)
  {
    var parameters, accepted := NormaliseRegistration(e);
    if !accepted {
      return Rejected(BadRegistration);
    }
    SetRegistration(e, NormalisedRegistration(e["registration"].s));
    if Falsy(parameters["registration"]) && parameters["planes_pad"] != Num(0.0) {
      return Rejected(PlanesPadWithoutRegistration);
    }
    if Suffixes(listing) == [] {
      return Raised(IndexError);
    }
    var p := DeriveFields(parameters, listing);
    SavedAfterNormalising(e, p, listing);
    return Saved(p);
  }

  /** Deriving the fields from the copy with registration normalised gives
      what is saved for e. */
  lemma SavedAfterNormalising(e: map<string, Value>, p: map<string, Value>, listing: seq<string>)
    requires CheckedFields(e) && Suffixes(listing) != []
    requires var parameters := e["registration" := NormalisedRegistration(e["registration"].s)];
             Resolved(parameters) &&
             p.Keys == parameters.Keys + DerivedKeys &&
             (forall k :: k in parameters && k !in DerivedKeys ==> p[k] == parameters[k]) &&
             DerivedFrom(p, parameters, listing)
    ensures SavedFrom(p, e, listing)
  {
    var r := NormalisedRegistration(e["registration"].s);
    var parameters := e["registration" := r];
    SetRegistration(e, r);
    assert parameters.Keys == e.Keys;
    assert "registration" !in DerivedKeys;
    forall k | k in e && k != "registration" && k !in DerivedKeys
      ensures p[k] == e[k]
    {
      assert parameters[k] == e[k];
    }
  }

  /** What the three loops of step0.py:38-57 end in: the first loop that
      does not run to its end decides, a failing key makes it print and
      return, and a string reached in a numeric loop, or a tuple whose
      message cannot be formatted, raises. */
  function FieldReport(e: map<string, Value>): Outcome
    requires HasCheckedKeys(e)
  {
    LoopsReport(e, DirKeys, IntKeys, RealKeys)
  }

  /** The three check loops over the given key lists. */
  function LoopsReport(e: map<string, Value>, dirKeys: seq<string>, intKeys: seq<string>, realKeys: seq<string>): Outcome
    requires forall k :: k in dirKeys || k in intKeys || k in realKeys ==> k in e
  {
    var dirs := ScanKeys(e, dirKeys, DirCheck);
    var ints := ScanKeys(e, intKeys, IntCheck);
    var reals := ScanKeys(e, realKeys, RealCheck);
    if dirs.Crashed? then Raised(TypeError)
    else if dirs.Failed? then Rejected(NotAPlainString(dirs.key))
    else if ints.Crashed? then Raised(TypeError)
    else if ints.Failed? then Rejected(NotANonNegativeInteger(ints.key))
    else if reals.Crashed? then Raised(TypeError)
    else if reals.Failed? then Rejected(NotANonNegativeReal(reals.key))
    else Saved(e)
  }

  /** Every key of `keys` passes its check. */
  predicate AllPassing(e: map<string, Value>, keys: seq<string>, check: Value -> Check)
    requires forall k :: k in keys ==> k in e
  {
    forall k :: k in keys ==> check(e[k]) == Pass
  }

  /** k is the first of `keys` whose value does not pass, with outcome c. */
  predicate FirstNotPassing(e: map<string, Value>, keys: seq<string>, check: Value -> Check, k: string, c: Check)
    requires forall k :: k in keys ==> k in e
  {
    c != Pass &&
    exists i :: 0 <= i < |keys| && keys[i] == k && check(e[k]) == c &&
                forall j :: 0 <= j < i ==> check(e[keys[j]]) == Pass
  }

  /** The report names the first key, in the order of the three loops,
      whose check does not pass: a failure is reported by name, a string in
      a numeric field or a tuple of other than one item raises; and the report is a save of e only when every
      check passes. */
  lemma FieldReportMeans(e: map<string, Value>)
    requires HasCheckedKeys(e)
    ensures FieldReport(e).Saved? <==>
              AllPassing(e, DirKeys, DirCheck) && AllPassing(e, IntKeys, IntCheck) && AllPassing(e, RealKeys, RealCheck)
    ensures FieldReport(e).Saved? ==> FieldReport(e).params == e
    ensures FieldReport(e).Rejected? ==>
              match FieldReport(e).reason
              case NotAPlainString(k) => FirstNotPassing(e, DirKeys, DirCheck, k, Fail)
              case NotANonNegativeInteger(k) =>
                AllPassing(e, DirKeys, DirCheck) && FirstNotPassing(e, IntKeys, IntCheck, k, Fail)
              case NotANonNegativeReal(k) =>
                AllPassing(e, DirKeys, DirCheck) && AllPassing(e, IntKeys, IntCheck) &&
                FirstNotPassing(e, RealKeys, RealCheck, k, Fail)
              case _ => false
    ensures FieldReport(e).Raised? ==>
              FieldReport(e).error == TypeError &&
              ((exists k :: FirstNotPassing(e, DirKeys, DirCheck, k, Crash) && Unprintable(e[k])) ||
               (AllPassing(e, DirKeys, DirCheck) &&
                exists k :: FirstNotPassing(e, IntKeys, IntCheck, k, Crash) && (StringLike(e[k]) || Unprintable(e[k]))) ||
               (AllPassing(e, DirKeys, DirCheck) && AllPassing(e, IntKeys, IntCheck) &&
                exists k :: FirstNotPassing(e, RealKeys, RealCheck, k, Crash) && (StringLike(e[k]) || Unprintable(e[k]))))
  {
    LoopsReportMeans(e, DirKeys, IntKeys, RealKeys);
  }

  lemma LoopsReportMeans(e: map<string, Value>, dirKeys: seq<string>, intKeys: seq<string>, realKeys: seq<string>)
    requires forall k :: k in dirKeys || k in intKeys || k in realKeys ==> k in e
    ensures var r := LoopsReport(e, dirKeys, intKeys, realKeys);
            (r.Saved? <==>
               AllPassing(e, dirKeys, DirCheck) && AllPassing(e, intKeys, IntCheck) && AllPassing(e, realKeys, RealCheck)) &&
            (r.Saved? ==> r.params == e) &&
            (r.Rejected? ==>
               match r.reason
               case NotAPlainString(k) => FirstNotPassing(e, dirKeys, DirCheck, k, Fail)
               case NotANonNegativeInteger(k) =>
                 AllPassing(e, dirKeys, DirCheck) && FirstNotPassing(e, intKeys, IntCheck, k, Fail)
               case NotANonNegativeReal(k) =>
                 AllPassing(e, dirKeys, DirCheck) && AllPassing(e, intKeys, IntCheck) &&
                 FirstNotPassing(e, realKeys, RealCheck, k, Fail)
               case _ => false) &&
            (r.Raised? ==>
               r.error == TypeError &&
               ((exists k :: FirstNotPassing(e, dirKeys, DirCheck, k, Crash) && Unprintable(e[k])) ||
                (AllPassing(e, dirKeys, DirCheck) &&
                 exists k :: FirstNotPassing(e, intKeys, IntCheck, k, Crash) && (StringLike(e[k]) || Unprintable(e[k]))) ||
                (AllPassing(e, dirKeys, DirCheck) && AllPassing(e, intKeys, IntCheck) &&
                 exists k :: FirstNotPassing(e, realKeys, RealCheck, k, Crash) && (StringLike(e[k]) || Unprintable(e[k])))))
  {
    var dirs := ScanKeys(e, dirKeys, DirCheck);
    var ints := ScanKeys(e, intKeys, IntCheck);
    var reals := ScanKeys(e, realKeys, RealCheck);
    ScanMeaning(e, dirKeys, DirCheck);
    ScanMeaning(e, intKeys, IntCheck);
    ScanMeaning(e, realKeys, RealCheck);
    if dirs.Crashed? {
      assert Unprintable(e[dirs.key]);
    }
    if ints.Crashed? {
      assert StringLike(e[ints.key]) || Unprintable(e[ints.key]);
    }
    if reals.Crashed? {
      assert StringLike(e[reals.key]) || Unprintable(e[reals.key]);
    }
  }

  /** The outcome of one check loop in terms of the keys it visits. */
  lemma ScanMeaning(e: map<string, Value>, keys: seq<string>, check: Value -> Check)
    requires forall k :: k in keys ==> k in e
    ensures ScanKeys(e, keys, check).AllPass? <==> AllPassing(e, keys, check)
    ensures ScanKeys(e, keys, check).Failed? ==> FirstNotPassing(e, keys, check, ScanKeys(e, keys, check).key, Fail)
    ensures ScanKeys(e, keys, check).Crashed? ==> FirstNotPassing(e, keys, check, ScanKeys(e, keys, check).key, Crash)
  {
    ScanKeysFirst(e, keys, check);
  }

  /** ds is the first integer field, so a negative ds is reported whatever
      the later numeric fields hold, strings included. */
  lemma NegativeDsReportedFirst(e: map<string, Value>)
    requires HasCheckedKeys(e) && AllPassing(e, DirKeys, DirCheck) && e["ds"] == Num(-1.0)
    ensures FieldReport(e) == Rejected(NotANonNegativeInteger("ds"))
  {
    assert IntKeys[0] == "ds";
  }

  /** A pathlib.Path dir_output gets past os.path.join and the file test,
      and is then refused by name by the string check at step0.py:40. */
  lemma PathOutputReportedByName(e: map<string, Value>)
    requires HasCheckedKeys(e) && e["dir_output"].Path?
    requires DirCheck(e["dir_ants"]) == Pass && DirCheck(e["dir_input"]) == Pass
    ensures Joinable(e["dir_output"])
    ensures FieldReport(e) == Rejected(NotAPlainString("dir_output"))
  {
    var rest := DirKeys[1..][1..];
    assert rest[0] == "dir_output" && DirCheck(e[rest[0]]) == Fail;
    assert ScanKeys(e, rest, DirCheck) == Failed("dir_output");
    assert DirKeys[1..][0] == "dir_input";
    assert ScanKeys(e, DirKeys[1..], DirCheck) == Failed("dir_output");
    assert ScanKeys(e, DirKeys, DirCheck) == Failed("dir_output");
  }

  /** A tuple for dir_ants, the first key checked, is refused by name when
      it has one item, and otherwise makes the message of step0.py:41
      raise. */
  lemma TupleDirAntsReport(e: map<string, Value>, n: nat)
    requires HasCheckedKeys(e) && e["dir_ants"] == Tuple(n)
    ensures FieldReport(e) == if n == 1 then Rejected(NotAPlainString("dir_ants")) else Raised(TypeError)
  {
    assert DirKeys[0] == "dir_ants";
  }

  /** The same for ds, the first integer field, once the directory fields
      pass: an empty or longer tuple raises at step0.py:48. */
  lemma TupleDsReport(e: map<string, Value>, n: nat)
    requires HasCheckedKeys(e) && AllPassing(e, DirKeys, DirCheck) && e["ds"] == Tuple(n)
    ensures FieldReport(e) == if n == 1 then Rejected(NotANonNegativeInteger("ds")) else Raised(TypeError)
  {
    assert IntKeys[0] == "ds";
  }

  /** The loops of step0.py:38-57 on a dictionary holding every key they
      read. */
  method CheckFields(parameters: map<string, Value>) returns (passed: bool, report: Outcome)
    requires HasCheckedKeys(parameters)
    ensures passed <==> FieldsOk(parameters)
    ensures report == FieldReport(parameters)
  {
    var dirs := ScanKeys(parameters, DirKeys, DirCheck);
    if dirs.Crashed? {
      return false, Raised(TypeError);
    }
    if dirs.Failed? {
      return false, Rejected(NotAPlainString(dirs.key));
    }
    var ints := ScanKeys(parameters, IntKeys, IntCheck);
    if ints.Crashed? {
      return false, Raised(TypeError);
    }
    if ints.Failed? {
      return false, Rejected(NotANonNegativeInteger(ints.key));
    }
    var reals := ScanKeys(parameters, RealKeys, RealCheck);
    if reals.Crashed? {
      return false, Raised(TypeError);
    }
    if reals.Failed? {
      return false, Rejected(NotANonNegativeReal(reals.key));
    }
    return true, Saved(parameters);
  }

  /** process_parameters(parameters0). */
  method ProcessParameters(input: Input, otherKeys: set<string>, fileExists: bool, listing: seq<string>)
    returns (out: Outcome)
    ensures out == Rejected(NotADictionary) <==> input.NotADict?
    ensures input.Dict? && !(Schema(otherKeys) <= input.entries.Keys) ==>
              out == Rejected(MissingKeys(Schema(otherKeys) - input.entries.Keys))
    ensures input.Dict? && Schema(otherKeys) <= input.entries.Keys && !Joinable(input.entries["dir_output"]) ==>
              out == Raised(TypeError)
    ensures input.Dict? && Schema(otherKeys) <= input.entries.Keys && Joinable(input.entries["dir_output"]) ==>
              (out == Rejected(ParameterFileExists) <==> fileExists)
    ensures input.Dict? && Schema(otherKeys) <= input.entries.Keys && Joinable(input.entries["dir_output"]) &&
            !fileExists ==>
              (SchemaHasCheckedKeys(input.entries, otherKeys);
               (!FieldsOk(input.entries) ==> out == FieldReport(input.entries)) &&
               (FieldsOk(input.entries) ==>
                  (FieldsOkChecked(input.entries);
                   (out.Rejected? <==> !RegistrationAccepted(input.entries)) &&
                   (out.Rejected? ==> out.reason == if RegistrationOk(input.entries["registration"].s)
                                                    then PlanesPadWithoutRegistration else BadRegistration))))
    ensures out.Saved? || out == Raised(IndexError) <==> input.Dict? && Acceptable(input.entries, otherKeys, fileExists)
    ensures out == Raised(IndexError) ==> Suffixes(listing) == []
    ensures out.Saved? ==> input.Dict? && CheckedFields(input.entries) && SavedFrom(out.params, input.entries, listing)
  {
    if input.NotADict? {
      return Rejected(NotADictionary);
    }
    var parameters := input.entries;
    var missing := Schema(otherKeys) - parameters.Keys;
    if missing != {} {
      return Rejected(MissingKeys(missing));
    }
    assert Schema(otherKeys) <= parameters.Keys by {
      forall k | k in Schema(otherKeys) ensures k in parameters {
        assert k !in missing;
      }
    }
    SchemaHasCheckedKeys(parameters, otherKeys);
    if !Joinable(parameters["dir_output"]) {
      assert "dir_output" in DirKeys && !FieldsOk(parameters);
      return Raised(TypeError);
    }
    if fileExists {
      return Rejected(ParameterFileExists);
    }
    var passed, report := CheckFields(parameters);
    if !passed {
      return report;
    }
    FieldsOkChecked(parameters);
    out := CompleteParameters(parameters, listing);
  }
}
