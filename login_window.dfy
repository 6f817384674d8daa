/**
 * The login window of main.py (`LoginWindow`): it loads one trained model
 * per user from the files of the model directory, deriving the user name
 * from the file name, and opens the password window for a user name typed
 * in the entry once it is non-blank and known.
 *
 * The directory listing (`os.listdir`) is a parameter, `None` when listing
 * fails; loading one model (`joblib.load`) is a parameter function from the
 * model's path to its scorer, `None` when loading raises.
 */
module Login {
  import opened Wrappers
  import opened PasswordCapture

  /** The model directory, a raw Windows path. */
  const ModelDir: string := "C:\\Users\\Hubert\\Desktop\\models"
  /** The separator `os.path.join` puts between a Windows directory and a file. */
  const Separator: string := "\\"
  const PickleSuffix: string := ".pkl"
  const JoblibSuffix: string := ".joblib"
  /** The two name endings that are removed to leave the user name. */
  const ModelTail: string := "_model.pkl"
  const ForestTail: string := "_isolation_forest.joblib"

  predicate EndsWith(s: string, suffix: string)
  {
    |suffix| <= |s| && s[|s| - |suffix|..] == suffix
  }

  /** Only files with one of the two model extensions are loaded. */
  predicate IsModelFile(file: string)
  {
    EndsWith(file, PickleSuffix) || EndsWith(file, JoblibSuffix)
  }

  // ---------------------------------------------------------------------------
  // `str.replace(pattern, '')`

  /** Python's `s.replace(pat, '')`: occurrences removed left to right, without overlap. */
  function RemoveAll(s: string, pat: string): (r: string)
    requires |pat| > 0
    ensures |r| <= |s|
    decreases |s|
  {
    if |s| < |pat| then s
    else if s[..|pat|] == pat then RemoveAll(s[|pat|..], pat)
    else [s[0]] + RemoveAll(s[1..], pat)
  }

  /** `pat` occurs in `s` starting at index `i`. */
  predicate OccursAt(s: string, pat: string, i: int)
  {
    0 <= i && i + |pat| <= |s| && s[i..i + |pat|] == pat
  }

  /** Text in which the pattern never occurs comes back unchanged. */
  lemma {:induction false} RemoveAbsent(s: string, pat: string)
    requires |pat| > 0
    requires forall i :: !OccursAt(s, pat, i)
    ensures RemoveAll(s, pat) == s
    decreases |s|
  {
    if |pat| <= |s| {
      assert !OccursAt(s, pat, 0);
      assert s[..|pat|] == s[0..0 + |pat|];
      forall i ensures !OccursAt(s[1..], pat, i) {
        if 0 <= i && i + |pat| <= |s| - 1 {
          assert s[1..][i..i + |pat|] == s[i + 1..i + 1 + |pat|];
          assert !OccursAt(s, pat, i + 1);
        }
      }
      RemoveAbsent(s[1..], pat);
      assert s == [s[0]] + s[1..];
    }
  }

  /**
   * A pattern whose first dot is at index `d` matches a text that ends with
   * it only at the very end, provided the text before it has no dot.
   */
  lemma {:induction false} RemoveTail(u: string, pat: string, d: nat)
    requires d < |pat| && pat[d] == '.' && '.' !in pat[..d]
    requires '.' !in u
    ensures RemoveAll(u + pat, pat) == u
    decreases |u|
  {
    var s := u + pat;
    if u == [] {
      assert s == pat && s[|pat|..] == [];
    } else {
      assert s[..|pat|] != pat by {
        if |u| > d {
          assert s[d] == u[d];
        } else {
          assert s[d] == pat[d - |u|] == pat[..d][d - |u|];
        }
      }
      assert s[1..] == u[1..] + pat;
      RemoveTail(u[1..], pat, d);
      assert [u[0]] + u[1..] == u;
    }
  }

  /** The user name a model file stands for: both name endings removed, in that order. */
  function UsernameOf(file: string): string
  {
    RemoveAll(RemoveAll(file, ModelTail), ForestTail)
  }

  /** Every occurrence of "_model.pkl" has its dot followed by 'p'. */
  lemma ModelTailDot(s: string, i: int)
    requires OccursAt(s, ModelTail, i)
    ensures s[i + 6] == '.' && s[i + 7] == 'p'
  {
    assert s[i + 6] == s[i..i + |ModelTail|][6];
    assert s[i + 7] == s[i..i + |ModelTail|][7];
  }

  /** A user's pickled model file names that user, for any name without a dot. */
  lemma PickleRoundTrip(u: string)
    requires '.' !in u
    ensures IsModelFile(u + ModelTail)
    ensures UsernameOf(u + ModelTail) == u
  {
    var file := u + ModelTail;
    assert file[|file| - |PickleSuffix|..] == PickleSuffix;
    assert '.' !in ModelTail[..6];
    RemoveTail(u, ModelTail, 6);
    forall i | 0 <= i && i + |ForestTail| <= |u| ensures !OccursAt(u, ForestTail, i) {
      assert u[i..i + |ForestTail|][17] == u[i + 17];
    }
    RemoveAbsent(u, ForestTail);
  }

  /** The only dot of "_isolation_forest.joblib" is followed by 'j'. */
  lemma ForestTailDot(k: int)
    requires 0 <= k < |ForestTail| - 1 && ForestTail[k] == '.'
    ensures ForestTail[k + 1] != 'p'
  {
  }

  /** A user's isolation-forest file names that user, for any name without a dot. */
  lemma ForestRoundTrip(u: string)
    requires '.' !in u
    ensures IsModelFile(u + ForestTail)
    ensures UsernameOf(u + ForestTail) == u
  {
    var file := u + ForestTail;
    assert file[|file| - |JoblibSuffix|..] == JoblibSuffix;
    forall i | 0 <= i && i + |ModelTail| <= |file| ensures !OccursAt(file, ModelTail, i) {
      if OccursAt(file, ModelTail, i) {
        ModelTailDot(file, i);
        if i + 6 >= |u| {
          ForestTailDot(i + 6 - |u|);
        }
      }
    }
    RemoveAbsent(file, ModelTail);
    assert ForestTail[..17] == "_isolation_forest";
    RemoveTail(u, ForestTail, 17);
  }

  // ---------------------------------------------------------------------------
  // `str.strip()`

  /** Python's `str.isspace` characters. */
  predicate IsSpace(c: char)
  {
    || c == ' ' || c == '\t' || c == '\n' || c == '\r' || c == '\U{000B}' || c == '\U{000C}'
    || ('\U{001C}' <= c <= '\U{001F}') || c == '\U{0085}' || c == '\U{00A0}' || c == '\U{1680}'
    || ('\U{2000}' <= c <= '\U{200A}') || c == '\U{2028}' || c == '\U{2029}' || c == '\U{202F}'
    || c == '\U{205F}' || c == '\U{3000}'
  }

  function TrimStart(s: string): (r: string)
    ensures r == [] || !IsSpace(r[0])
    ensures |r| <= |s| && r == s[|s| - |r|..]
    ensures forall k :: 0 <= k < |s| - |r| ==> IsSpace(s[k])
  {
    if s != [] && IsSpace(s[0]) then TrimStart(s[1..]) else s
  }

  function TrimEnd(s: string): (r: string)
    ensures r == [] || !IsSpace(r[|r| - 1])
    ensures |r| <= |s| && r == s[..|r|]
    ensures forall k :: |r| <= k < |s| ==> IsSpace(s[k])
  {
    if s != [] && IsSpace(s[|s| - 1]) then TrimEnd(s[..|s| - 1]) else s
  }

  /**
   * `str.strip()`: the text with its leading and trailing whitespace
   * removed; empty exactly when the text is all whitespace.
   */
  function Strip(s: string): (r: string)
    ensures r == [] || (!IsSpace(r[0]) && !IsSpace(r[|r| - 1]))
    ensures r == [] <==> forall k :: 0 <= k < |s| ==> IsSpace(s[k])
  {
    var t := TrimStart(s);
    var r := TrimEnd(t);
    assert r != [] ==> r[0] == t[0];
    assert r == [] ==> t == [];
    r
  }

  /** What strip keeps is one contiguous piece of the text, with only whitespace around it. */
  lemma StripSlice(s: string) returns (i: nat, j: nat)
    ensures i <= j <= |s| && Strip(s) == s[i..j]
    ensures forall k :: 0 <= k < i ==> IsSpace(s[k])
    ensures forall k :: j <= k < |s| ==> IsSpace(s[k])
  {
    var t := TrimStart(s);
    var r := TrimEnd(t);
    i, j := |s| - |t|, |s| - |t| + |r|;
    PrefixOfSuffix(s, t, r);
    assert Strip(s) == r;
  }

  /** A prefix `r` of a suffix `t` of `s` is a slice of `s`, and `t`'s rows after `r` are `s`'s. */
  lemma PrefixOfSuffix<T>(s: seq<T>, t: seq<T>, r: seq<T>)
    requires |t| <= |s| && t == s[|s| - |t|..] && |r| <= |t| && r == t[..|r|]
    ensures r == s[|s| - |t|..|s| - |t| + |r|]
    ensures forall k :: |s| - |t| + |r| <= k < |s| ==> s[k] == t[k - (|s| - |t|)]
  {
  }

  /** Stripping twice is stripping once. */
  lemma StripIdempotent(s: string)
    ensures Strip(Strip(s)) == Strip(s)
  {
    var r := Strip(s);
    if r != [] {
      assert TrimStart(r) == r;
      assert TrimEnd(r) == r;
    }
  }

  // ---------------------------------------------------------------------------
  // Loading the models

  /** `os.path.join(model_dir, file)`. */
  function ModelPath(file: string): (p: string)
    ensures EndsWith(p, file)
  {
    var p := ModelDir + Separator + file;
    assert p[|p| - |file|..] == file;
    p
  }

  /**
   * The models dictionary after the loop has seen the first `k` listed files,
   * and whether a load has raised: each model file stores its scorer under
   * its user name, later files replacing earlier ones; the first failed load
   * ends the loop, keeping what was loaded before it.
   */
  function LoadedUpTo(files: seq<string>, k: nat, load: string -> Option<Scorer>): (map<string, Scorer>, bool)
    requires k <= |files|
  {
    if k == 0 then (map[], false)
    else
      var (models, failed) := LoadedUpTo(files, k - 1, load);
      var file := files[k - 1];
      if failed || !IsModelFile(file) then (models, failed)
      else match load(ModelPath(file))
        case None => (models, true)
        case Some(scorer) => (models[UsernameOf(file) := scorer], false)
  }

  /** Every loaded user name comes from a model file in the listing whose load succeeded. */
  lemma {:induction false} LoadedFromFile(files: seq<string>, k: nat, load: string -> Option<Scorer>, user: string)
    returns (i: nat)
    requires k <= |files| && user in LoadedUpTo(files, k, load).0
    ensures i < k && IsModelFile(files[i]) && UsernameOf(files[i]) == user
    ensures load(ModelPath(files[i])) == Some(LoadedUpTo(files, k, load).0[user])
  {
    var (models, failed) := LoadedUpTo(files, k - 1, load);
    var file := files[k - 1];
    if failed || !IsModelFile(file) || load(ModelPath(file)).None? || UsernameOf(file) != user {
      i := LoadedFromFile(files, k - 1, load, user);
    } else {
      i := k - 1;
    }
  }

  /** Without a failed load, every model file in the listing gives its user a model. */
  lemma {:induction false} LoadedEveryUser(files: seq<string>, k: nat, load: string -> Option<Scorer>, i: nat)
    requires i < k <= |files| && !LoadedUpTo(files, k, load).1 && IsModelFile(files[i])
    ensures UsernameOf(files[i]) in LoadedUpTo(files, k, load).0
  {
    if i < k - 1 {
      LoadedEveryUser(files, k - 1, load, i);
    }
  }

  /** Once a load has raised, no later file changes the models. */
  lemma {:induction false} FailureStopsLoading(files: seq<string>, i: nat, k: nat, load: string -> Option<Scorer>)
    requires i <= k <= |files| && LoadedUpTo(files, i, load).1
    ensures LoadedUpTo(files, k, load) == LoadedUpTo(files, i, load)
    decreases k
  {
    if i < k {
      FailureStopsLoading(files, i, k - 1, load);
    }
  }

  /** The models `load_models` returns, from the listing (None when it raised). */
  function LoadedModels(listing: Option<seq<string>>, load: string -> Option<Scorer>): map<string, Scorer>
  {
    if listing.None? then map[] else LoadedUpTo(listing.value, |listing.value|, load).0
  }

  // ---------------------------------------------------------------------------
  // Choosing the user

  datatype LoginError = EmptyUsername | UserNotFound

  /**
   * The checks of `show_password_window` on the entry's text: the stripped
   * name must be non-empty and must have a model.
   */
  function ResolveUsername(entry: string, models: map<string, Scorer>): (r: Result<string, LoginError>)
    ensures r == Err(EmptyUsername) <==> forall k :: 0 <= k < |entry| ==> IsSpace(entry[k])
    ensures r == Err(UserNotFound) <==> Strip(entry) != [] && Strip(entry) !in models
    ensures r.Ok? ==> r.value == Strip(entry) && r.value in models && r.value != []
  {
    var name := Strip(entry);
    if name == [] then Err(EmptyUsername)
    else if name !in models then Err(UserNotFound)
    else Ok(name)
  }

  /** Surrounding whitespace in the entry does not change which user is chosen. */
  lemma ResolveIgnoresPadding(entry: string, pad1: string, pad2: string, models: map<string, Scorer>)
    requires forall k :: 0 <= k < |pad1| ==> IsSpace(pad1[k])
    requires forall k :: 0 <= k < |pad2| ==> IsSpace(pad2[k])
    ensures ResolveUsername(pad1 + entry + pad2, models) == ResolveUsername(entry, models)
  {
    PaddedStrip(entry, pad1, pad2);
  }

  /** Leading whitespace is all that TrimStart removes first. */
  lemma {:induction false} TrimStartSpaces(pad: string, s: string)
    requires forall k :: 0 <= k < |pad| ==> IsSpace(pad[k])
    ensures TrimStart(pad + s) == TrimStart(s)
  {
    if pad != [] {
      assert (pad + s)[0] == pad[0] && (pad + s)[1..] == pad[1..] + s;
      assert TrimStart(pad + s) == TrimStart(pad[1..] + s);
      TrimStartSpaces(pad[1..], s);
    } else {
      assert pad + s == s;
    }
  }

  /** Once a non-space character is reached, what follows is kept whole. */
  lemma {:induction false} TrimStartAppend(s: string, tail: string)
    requires TrimStart(s) != []
    ensures TrimStart(s + tail) == TrimStart(s) + tail
  {
    assert s != [] && (s + tail)[0] == s[0];
    if IsSpace(s[0]) {
      assert (s + tail)[1..] == s[1..] + tail;
      assert TrimStart(s + tail) == TrimStart(s[1..] + tail);
      TrimStartAppend(s[1..], tail);
    } else {
      assert TrimStart(s + tail) == s + tail;
    }
  }

  /** Trailing whitespace is all that TrimEnd removes first. */
  lemma {:induction false} TrimEndSpaces(s: string, pad: string)
    requires forall k :: 0 <= k < |pad| ==> IsSpace(pad[k])
    ensures TrimEnd(s + pad) == TrimEnd(s)
  {
    if pad != [] {
      var init := pad[..|pad| - 1];
      assert (s + pad)[|s + pad| - 1] == pad[|pad| - 1] && (s + pad)[..|s + pad| - 1] == s + init;
      assert TrimEnd(s + pad) == TrimEnd(s + init);
      TrimEndSpaces(s, init);
    } else {
      assert s + pad == s;
    }
  }

  lemma PaddedStrip(s: string, pad1: string, pad2: string)
    requires forall k :: 0 <= k < |pad1| ==> IsSpace(pad1[k])
    requires forall k :: 0 <= k < |pad2| ==> IsSpace(pad2[k])
    ensures Strip(pad1 + s + pad2) == Strip(s)
  {
    assert pad1 + s + pad2 == pad1 + (s + pad2);
    TrimStartSpaces(pad1, s + pad2);
    if TrimStart(s) != [] {
      TrimStartAppend(s, pad2);
      TrimEndSpaces(TrimStart(s), pad2);
    } else {
      TrimStartSpaces(s, pad2);
      TrimStartSpaces(pad2, []);
      assert pad2 + [] == pad2;
    }
  }

  /** `LoginWindow`: the loaded models and whether the window is hidden. */
  class LoginWindow {
    var userModels: map<string, Scorer>
    /** `self.withdraw()` ran: the password window replaced this one. */
    var hidden: bool

    /** `__init__`: loads the models; the window starts shown. The error box is left out. */
    constructor (listing: Option<seq<string>>, load: string -> Option<Scorer>)
      ensures userModels == LoadedModels(listing, load) && !hidden
    {
      var models, _ := LoadModels(listing, load);
      userModels := models;
      hidden := false;
    }

    /**
     * `load_models`: the models loaded from the listed files, and whether the
     * error box was shown because listing or loading raised.
     */
    static method LoadModels(listing: Option<seq<string>>, load: string -> Option<Scorer>)
      returns (models: map<string, Scorer>, failed: bool)
      ensures models == LoadedModels(listing, load)
      ensures failed <==> listing.None? || LoadedUpTo(listing.value, |listing.value|, load).1
    {
      models := map[];
      if listing.None? {
        return models, true;
      }
      var files := listing.value;
      var i := 0;
      failed := false;
      while i < |files| && !failed
        invariant 0 <= i <= |files|
        invariant (models, failed) == LoadedUpTo(files, i, load)
      {
        var file := files[i];
        if IsModelFile(file) {
          var username := UsernameOf(file);
          var modelPath := ModelPath(file);
          var loaded := load(modelPath);
          if loaded.None? {
            failed := true;
          } else {
            models := models[username := loaded.value];
          }
        }
        i := i + 1;
      }
      if failed {
        FailureStopsLoading(files, i, |files|, load);
      }
    }

    /**
     * `show_password_window` with the entry's text: a blank or unknown name
     * is refused and nothing changes; a known one hides this window and opens
     * a fresh password window for that user's model.
     */
    method ShowPasswordWindow(entry: string) returns (r: Result<PasswordWindow, LoginError>)
      modifies this`hidden
      ensures ResolveUsername(entry, userModels).Err? ==>
                r == Err(ResolveUsername(entry, userModels).error) && hidden == old(hidden)
      ensures ResolveUsername(entry, userModels).Ok? ==>
                && r.Ok? && fresh(r.value) && hidden
                && r.value.username == ResolveUsername(entry, userModels).value
                && r.value.scorer == userModels[r.value.username]
                && r.value.Valid() && r.value.State() == Capture([], None, None, None) && !r.value.closed
    {
      var username := Strip(entry);
      if username == [] {
        return Err(EmptyUsername);
      }
      if username !in userModels {
        return Err(UserNotFound);
      }
      hidden := true;
      var window := new PasswordWindow(username, userModels[username]);
      return Ok(window);
    }
  }
}
