/** The user menu (src/components/user-profile.tsx): the display name derived
    from the signed-in user, and the profile-settings update. The auth backend
    is an object holding the signed-in account; each call into it takes the
    outcome it reports. */
module Profile {

  import opened Options

  /** The fields of the auth user the menu reads. */
  datatype User = User(id: string, email: Option<string>, metaDisplayName: Option<string>)

  /** `parts.join(sep)` */
  function Join(parts: seq<string>, sep: char): string
    requires |parts| >= 1
    decreases |parts|
  {
    if |parts| == 1 then parts[0] else parts[0] + [sep] + Join(parts[1..], sep)
  }

  /** `s.split(sep)` for a one-character separator: the maximal runs of `s`
      between separators, at least one of them. */
  function Split(s: string, sep: char): (parts: seq<string>)
    ensures |parts| >= 1
    ensures forall i :: 0 <= i < |parts| ==> sep !in parts[i]
    decreases |s|
  {
    if |s| == 0 then [""]
    else
      var rest := Split(s[1..], sep);
      if s[0] == sep then [""] + rest
      else [[s[0]] + rest[0]] + rest[1..]
  }

  /** Joining what `split` returned gives back the original text. */
  lemma {:induction false} JoinSplit(s: string, sep: char)
    ensures Join(Split(s, sep), sep) == s
    decreases |s|
  {
    if |s| > 0 {
      var rest := Split(s[1..], sep);
      JoinSplit(s[1..], sep);
      if s[0] == sep {
        assert Split(s, sep)[1..] == rest;
      } else if |rest| > 1 {
        assert Split(s, sep)[1..] == rest[1..];
        assert Join(rest, sep) == rest[0] + [sep] + Join(rest[1..], sep);
      }
    }
  }

  /** Dropping the first character of a join drops it from the first part. */
  lemma JoinDropFirst(parts: seq<string>, sep: char)
    requires |parts| >= 1 && |parts[0]| > 0
    ensures |Join(parts, sep)| > 0 && Join(parts, sep)[0] == parts[0][0]
    ensures Join(parts, sep)[1..] == Join([parts[0][1..]] + parts[1..], sep)
  {
    var parts' := [parts[0][1..]] + parts[1..];
    assert parts'[1..] == parts[1..];
  }

  /** Splitting a join of separator-free parts gives back the parts. */
  lemma {:induction false} SplitJoin(parts: seq<string>, sep: char)
    requires |parts| >= 1
    requires forall i :: 0 <= i < |parts| ==> sep !in parts[i]
    ensures Split(Join(parts, sep), sep) == parts
    decreases |parts|, |parts[0]|
  {
    var p, s := parts[0], Join(parts, sep);
    if |p| > 0 {
      var parts' := [p[1..]] + parts[1..];
      SplitJoin(parts', sep);
      JoinDropFirst(parts, sep);
      assert s[0] == p[0] && s[0] != sep;
      var rest := Split(s[1..], sep);
      assert rest == parts';
      assert Split(s, sep) == [[p[0]] + rest[0]] + rest[1..];
      assert [p[0]] + p[1..] == p;
      assert Split(s, sep) == [p] + parts[1..];
    } else if |parts| > 1 {
      SplitJoin(parts[1..], sep);
      assert s == [sep] + Join(parts[1..], sep);
      assert s[1..] == Join(parts[1..], sep);
      assert [""] + parts[1..] == parts;
    }
  }

  /** The first part of `s.split(sep)` is the text before the first `sep`,
      or all of `s` when it has none. */
  lemma {:induction false} SplitHead(s: string, sep: char)
    ensures Split(s, sep)[0] <= s
    ensures sep !in Split(s, sep)[0]
    ensures |Split(s, sep)[0]| == |s| || s[|Split(s, sep)[0]|] == sep
    decreases |s|
  {
    if |s| > 0 && s[0] != sep {
      SplitHead(s[1..], sep);
      assert s == [s[0]] + s[1..];
    }
  }

  /** `t` is the part of `email` before its first '@' (all of it if none). */
  predicate IsLocalPart(t: string, email: string) {
    && t <= email
    && '@' !in t
    && (|t| == |email| || email[|t|] == '@')
  }

  /** JavaScript's `a || b` on strings: the empty string is falsy. */
  function OrElse(a: string, b: string): string {
    if a != "" then a else b
  }

  /** The expression `getUser` stores in `displayName`:
      `user.user_metadata?.display_name || user.email?.split("@")[0] || ""`. */
  function DisplayNameFor(u: User): (r: string)
    ensures u.metaDisplayName.Some? && u.metaDisplayName.value != "" ==> r == u.metaDisplayName.value
    ensures (u.metaDisplayName.None? || u.metaDisplayName.value == "") && u.email.Some? ==>
      IsLocalPart(r, u.email.value)
    ensures (u.metaDisplayName.None? || u.metaDisplayName.value == "") && u.email.None? ==> r == ""
  {
    var meta := if u.metaDisplayName.Some? then u.metaDisplayName.value else "";
    var local :=
      if u.email.Some? then SplitHead(u.email.value, '@'); Split(u.email.value, '@')[0]
      else "";
    OrElse(meta, OrElse(local, ""))
  }

  /** An email without '@' is shown whole. */
  lemma WholeEmailWithoutAt(u: User)
    requires u.metaDisplayName.None? || u.metaDisplayName.value == ""
    requires u.email.Some? && '@' !in u.email.value
    ensures DisplayNameFor(u) == u.email.value
  {
  }

  /** The name the menu's header shows: `displayName || "User"`. */
  function MenuLabel(displayName: string): (r: string)
    ensures r != ""
    ensures displayName != "" ==> r == displayName
    ensures displayName == "" ==> r == "User"
  {
    OrElse(displayName, "User")
  }

  /** With no usable display name and no email the menu reads "User". */
  lemma AnonymousMenuLabel(u: User)
    requires u.metaDisplayName.None? || u.metaDisplayName.value == ""
    requires u.email.None?
    ensures MenuLabel(DisplayNameFor(u)) == "User"
  {
  }

  /** The auth backend (`supabase.auth`) as seen by one browser session. */
  class AuthService {
    var account: Option<User>

    constructor (signedIn: Option<User>)
      ensures account == signedIn
    {
      account := signedIn;
    }

    /** `auth.getUser()`: the signed-in account, or no user when the backend
        reports an error (even while a session exists). */
    method GetUser(succeeds: bool) returns (u: Option<User>)
      ensures u == if succeeds then account else None
    {
      u := if succeeds then account else None;
    }

    /** `auth.updateUser({ data: { display_name: name } })`: fails when the
        backend reports an error or nobody is signed in. */
    method UpdateUser(name: string, succeeds: bool) returns (done: bool)
      modifies this
      ensures done == (succeeds && old(account).Some?)
      ensures account == if done then Some(old(account).value.(metaDisplayName := Some(name)))
                         else old(account)
    {
      done := succeeds && account.Some?;
      if done {
        account := Some(account.value.(metaDisplayName := Some(name)));
      }
    }
  }

  class UserProfile {
    const auth: AuthService
    var user: Option<User>
    var settingsOpen: bool
    var displayName: string
    var isLoading: bool

    /** The component's initial state. */
    constructor (service: AuthService)
      ensures auth == service
      ensures user == None && !settingsOpen && displayName == "" && !isLoading
    {
      auth := service;
      user := None;
      settingsOpen := false;
      displayName := "";
      isLoading := false;
    }

    /** `getUser`: when the backend returns a user, remember them and derive
        the display name; when it returns none (nobody signed in, or the read
        failed) leave `user` and `displayName` alone. */
    method GetUser(succeeds: bool)
      modifies this
      ensures !(succeeds && auth.account.Some?) ==>
        user == old(user) && displayName == old(displayName)
      ensures succeeds && auth.account.Some? ==>
        user == auth.account && displayName == DisplayNameFor(auth.account.value)
      ensures settingsOpen == old(settingsOpen) && isLoading == old(isLoading)
    {
      var u := auth.GetUser(succeeds);
      if u.Some? {
        user := u;
        displayName := DisplayNameFor(u.value);
      }
    }

    /** The display-name input's `onChange`. */
    method EditDisplayName(name: string)
      modifies this`displayName
      ensures displayName == name
    {
      displayName := name;
    }

    /** The "Profile Settings" menu item and the dialog's Cancel button. */
    method SetSettingsOpen(open: bool)
      modifies this`settingsOpen
      ensures settingsOpen == open
    {
      settingsOpen := open;
    }

    /** `updateProfile`: without a user nothing happens. Otherwise the typed
        name is sent as the metadata display name; on success the user is
        reloaded (a reload that returns no user keeps `user` and
        `displayName`) and the dialog closes, on error the dialog stays open.
        The busy flag is down afterwards either way. */
    method UpdateProfile(succeeds: bool, reloadSucceeds: bool)
      modifies this, auth
      ensures old(user).None? ==>
        && auth.account == old(auth.account) && user == old(user)
        && displayName == old(displayName) && settingsOpen == old(settingsOpen)
        && isLoading == old(isLoading)
      ensures old(user).Some? ==> !isLoading
      ensures old(user).Some? && succeeds && old(auth.account).Some? ==>
        && auth.account == Some(old(auth.account).value.(metaDisplayName := Some(old(displayName))))
        && !settingsOpen
      ensures old(user).Some? && succeeds && old(auth.account).Some? && reloadSucceeds ==>
        && user == auth.account
        && displayName == DisplayNameFor(auth.account.value)
      ensures old(user).Some? && succeeds && old(auth.account).Some? && !reloadSucceeds ==>
        && user == old(user)
        && displayName == old(displayName)
      ensures old(user).Some? && !(succeeds && old(auth.account).Some?) ==>
        && auth.account == old(auth.account) && user == old(user)
        && displayName == old(displayName) && settingsOpen == old(settingsOpen)
    {
      if user.None? {
        return;
      }
      isLoading := true;
      var done := auth.UpdateUser(displayName, succeeds);
      if done {
        GetUser(reloadSucceeds);
        settingsOpen := false;
      }
      isLoading := false;
    }
  }

  /** A successful update with a non-empty name shows exactly that name. */
  lemma SavedNameIsShown(u: User, name: string)
    requires name != ""
    ensures DisplayNameFor(u.(metaDisplayName := Some(name))) == name
  {
  }

  /** Saving an empty name falls back to the email's local part. */
  lemma EmptySavedNameFallsBack(u: User)
    requires u.email.Some?
    ensures IsLocalPart(DisplayNameFor(u.(metaDisplayName := Some(""))), u.email.value)
  {
  }
}
