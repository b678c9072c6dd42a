/** Where the login password of src/client.rs comes from and when it may be saved.  SHA-256 is a
    parameter: any function whose results are not empty.  The preset and the built-in default
    password are settings of the session; the address book and the messages are inputs; `origin` is
    an auxiliary variable that remembers which branch set the current password. */
module LoginProvenance {
  import opened Common

  type Bytes = seq<Byte>

  type Sha = Bytes -> Bytes

  /** The recorded source of the sent password. */
  datatype PasswordSource = PersonalAb(hash: Bytes) | SharedAb(password: Bytes) | Undefined

  /** Where it really came from. */
  datatype Origin = NoPassword | Typed | Preset | Saved | Personal | Shared | FromToken

  datatype Login = Login(
    salt: Bytes,
    password: Bytes,
    source: PasswordSource,
    origin: Origin,
    remember: bool,
    config: Bytes,                  // password in the handler's copy of the peer config
    saved: Bytes,                   // password in the peer config on disk
    sharedPassword: Option<Bytes>,
    switchUuid: Option<bool>,       // whether the id given for switching sides parses
    preset: Bytes,
    builtin: Bytes)

  /** What a session hands to its successor. */
  datatype ConnToken = ConnToken(password: Bytes, source: PasswordSource)

  datatype LoginError = PasswordEmpty | PasswordWrong | OtherError

  datatype Event =
    | Hash(salt: Bytes, personal: Option<Bytes>)
    | Failed(error: LoginError)
    | UiLogin(password: Bytes, remember: bool)
    | PeerInfo

  function Salted(sha: Sha, password: Bytes, salt: Bytes): Bytes { sha(password + salt) }

  predicate IsPersonalAb(s: Login) {
    s.password != [] && s.source == PersonalAb(s.password)
  }

  predicate IsSharedAb(sha: Sha, s: Login) {
    s.password != [] && s.source.SharedAb? && Salted(sha, s.source.password, s.salt) == s.password
  }

  // ---------------------------------------------------------------- the handlers, as functions

  function OriginOf(token: ConnToken): Origin {
    if token.password == [] then NoPassword
    else match token.source
      case PersonalAb(_) => Personal
      case SharedAb(_) => Shared
      case Undefined => FromToken
  }

  /** What does not change during a session. */
  datatype Settings = Settings(preset: Bytes, builtin: Bytes)

  function Initialize(saved: Bytes, token: Option<ConnToken>, shared: Option<Bytes>, switchUuid: Option<bool>,
                      settings: Settings): Login
  {
    var t := if token.Some? then token.value else ConnToken([], Undefined);
    Login([], t.password, t.source, OriginOf(t), saved != [], saved, saved, shared, switchUuid,
          settings.preset, settings.builtin)
  }

  function TryPreset(sha: Sha, s: Login): Login {
    if s.password == [] && s.preset != []
    then s.(password := Salted(sha, s.preset, s.salt), source := Undefined, origin := Preset) else s
  }

  function TryShared(sha: Sha, s: Login): Login {
    var t := s.(sharedPassword := None);
    if s.sharedPassword.Some? && s.sharedPassword.value != []
    then
      var p := s.sharedPassword.value;
      t.(password := Salted(sha, p, s.salt), source := SharedAb(p), origin := Shared)
    else t
  }

  function TryConfig(s: Login): Login {
    if s.password == [] && s.config != []
    then s.(password := s.config, source := Undefined, origin := Saved) else s
  }

  function TryPersonal(s: Login, personal: Option<Bytes>): Login {
    if s.password == [] && personal.Some? && personal.value != []
    then s.(password := personal.value, source := PersonalAb(personal.value), origin := Personal) else s
  }

  function TryBuiltin(sha: Sha, s: Login): Login {
    if s.password == [] && s.builtin != []
    then s.(password := Salted(sha, s.builtin, s.salt), source := SharedAb(s.builtin), origin := Shared) else s
  }

  function HandleHash(sha: Sha, s: Login, e: Event): Login
    requires e.Hash?
  {
    var s0 := s.(salt := e.salt, switchUuid := None);
    if s.switchUuid == Some(true) then s0.(source := Undefined) else AllTries(sha, s0, e.personal)
  }

  function AllTries(sha: Sha, s: Login, personal: Option<Bytes>): Login {
    TryBuiltin(sha, TryPersonal(TryConfig(TryShared(sha, TryPreset(sha, s))), personal))
  }

  function HandleError(s: Login, error: LoginError): Login {
    if error.OtherError? then s else s.(password := [], origin := NoPassword)
  }

  function HandleUiLogin(sha: Sha, s: Login, password: Bytes, remember: bool): Login {
    if password != []
    then s.(password := Salted(sha, password, s.salt), source := Undefined, origin := Typed, remember := remember)
    else TryConfig(s)
  }

  function HandlePeerInfo(sha: Sha, s: Login): Login {
    var password :=
      if s.remember then
        if s.password != [] && s.password != s.saved && !IsSharedAb(sha, s) then s.password else s.saved
      else if IsPersonalAb(s) then s.password
      else [];
    s.(saved := password, config := password)
  }

  function Step(sha: Sha, s: Login, e: Event): Login {
    match e
    case Hash(_, _) => HandleHash(sha, s, e)
    case Failed(error) => HandleError(s, error)
    case UiLogin(password, remember) => HandleUiLogin(sha, s, password, remember)
    case PeerInfo => HandlePeerInfo(sha, s)
  }

  function Run(sha: Sha, s: Login, events: seq<Event>): Login {
    if events == [] then s else Step(sha, Run(sha, s, events[..|events| - 1]), events[|events| - 1])
  }

  // ---------------------------------------------------------------- what the source says

  /** The recorded source describes the current password, if there is one. */
  ghost predicate Describes(sha: Sha, s: Login) {
    s.password != [] ==>
      && (s.source.SharedAb? ==> s.source.password != [] && s.password == Salted(sha, s.source.password, s.salt))
      && (s.source.PersonalAb? ==> s.password == s.source.hash)
  }

  ghost predicate TracksPassword(s: Login) {
    && (s.password == [] <==> s.origin == NoPassword)
    && (s.origin == Shared ==> s.source.SharedAb? || s.source == Undefined)
  }

  ghost predicate NonEmptySha(sha: Sha) {
    forall x :: sha(x) != []
  }

  /** A token issued by a session with this salt. */
  ghost predicate HonestToken(sha: Sha, token: ConnToken, salt: Bytes) {
    token.password != [] ==>
      && (token.source.SharedAb? ==>
            token.source.password != [] && token.password == Salted(sha, token.source.password, salt))
      && (token.source.PersonalAb? ==> token.password == token.source.hash)
  }

  /** The salts make no difference to this password. */
  ghost predicate Alike(sha: Sha, p: Bytes, salts: iset<Bytes>) {
    forall salt1, salt2 | salt1 in salts && salt2 in salts :: Salted(sha, p, salt1) == Salted(sha, p, salt2)
  }

  predicate Without(password: Option<Bytes>) { password.None? || password.value == [] }

  /** The shared passwords that are still to come are alike under all salts. */
  ghost predicate Ahead(sha: Sha, s: Login, salts: iset<Bytes>) {
    && (s.preset == [] && s.builtin != [] ==> Alike(sha, s.builtin, salts))
    && (!Without(s.sharedPassword) ==> Alike(sha, s.sharedPassword.value, salts))
  }

  /** The password of the token outlives the first message, with its source. */
  predicate Survives(s: Login) { s.switchUuid != Some(true) && Without(s.sharedPassword) }

  /** Lost track: switching sides forgot that a password was shared. */
  ghost predicate Lost(s: Login) {
    s.origin == Shared && s.source == Undefined
  }

  /** A forgotten shared password is harmless if it would not be written. */
  ghost predicate Harmless(s: Login) {
    Lost(s) ==> !s.remember || s.password == s.saved
  }

  /** A session that switches sides while its token carries a shared password that is not the
      remembered one. */
  ghost predicate SwitchesWithSharedToken(s: Login) {
    s.switchUuid == Some(true) && s.origin == Shared && s.remember && s.password != s.saved
  }

  /** The password is described, whatever salt comes next. */
  ghost predicate Settled(sha: Sha, s: Login, salts: iset<Bytes>) {
    && Describes(sha, s)
    && (s.password != [] && s.source.SharedAb? ==> Alike(sha, s.source.password, salts))
  }

  /** It stays so; before the first message, for whatever salt that brings. */
  ghost predicate Sound(sha: Sha, s: Login, salts: iset<Bytes>, greeted: bool) {
    && TracksPassword(s) && Ahead(sha, s, salts)
    && if greeted then s.salt in salts && s.switchUuid == None && Settled(sha, s, salts)
       else !Lost(s) && (Survives(s) ==> forall x :: x in salts ==> Describes(sha, s.(salt := x)))
  }

  /** No shared password is about to be written. */
  ghost predicate Safe(s: Login, greeted: bool) {
    if greeted then Harmless(s) else !SwitchesWithSharedToken(s)
  }

  /** A peer-info step that writes a password of shared origin to the peer config. */
  ghost predicate Leaks(sha: Sha, s: Login, e: Event) {
    e.PeerInfo? && s.origin == Shared && Step(sha, s, e).saved == s.password && s.password != s.saved
  }

  /** What a hash message that takes `s` to `t` can do, without the order of the sources. */
  ghost predicate HashStep(sha: Sha, s: Login, salt: Bytes, t: Login) {
    && t.salt == salt && t.switchUuid == None && TracksPassword(t)
    && t.preset == s.preset && t.builtin == s.builtin
    && t.remember == s.remember && t.saved == s.saved && t.config == s.config
    && if s.switchUuid == Some(true) then
         && t.sharedPassword == s.sharedPassword
         && t.password == s.password && t.source == Undefined && t.origin == s.origin
       else
         t.sharedPassword == None && Taken(sha, s, salt, t)
  }

  /** The session's shared password replaces any other; without it a password stays, and without
      either a shared one can only be the built-in one. */
  ghost predicate Taken(sha: Sha, s: Login, salt: Bytes, t: Login) {
    if !Without(s.sharedPassword) then UsesShared(sha, t, s.sharedPassword.value)
    else if s.password != [] then t.password == s.password && t.source == s.source && t.origin == s.origin
    else
      && ((t.password != [] && t.source.SharedAb?) || t.origin == Shared ==>
            s.preset == [] && s.builtin != [] && UsesShared(sha, t, s.builtin))
      && (t.source.PersonalAb? && t.password != [] ==> t.password == t.source.hash)
      && (s.preset == [] && s.config == [] && t.origin != Personal && s.builtin != [] ==> t.origin == Shared)
  }

  predicate UsesShared(sha: Sha, t: Login, p: Bytes) {
    t.password == Salted(sha, p, t.salt) && t.source == SharedAb(p) && t.origin == Shared
  }

  /** Which source wins when several have a password, as a session that is not switching sides tries them:
      its shared password, the password from before, the preset, the saved one, the one of the personal
      address book, the built-in one. */
  lemma SourceWins(sha: Sha, s: Login, e: Event)
    requires NonEmptySha(sha) && e.Hash? && s.switchUuid != Some(true) && TracksPassword(s)
    ensures var t := HandleHash(sha, s, e);
      var (password, source, origin) :=
        if s.sharedPassword.Some? && s.sharedPassword.value != [] then
          (sha(s.sharedPassword.value + e.salt), SharedAb(s.sharedPassword.value), Shared)
        else if s.password != [] then (s.password, s.source, s.origin)
        else if s.preset != [] then (sha(s.preset + e.salt), Undefined, Preset)
        else if s.config != [] then (s.config, Undefined, Saved)
        else if e.personal.Some? && e.personal.value != [] then
          (e.personal.value, PersonalAb(e.personal.value), Personal)
        else if s.builtin != [] then (sha(s.builtin + e.salt), SharedAb(s.builtin), Shared)
        else ([], s.source, NoPassword);
      t == s.(salt := e.salt, switchUuid := None, sharedPassword := None,
              password := password, source := source, origin := origin)
  {
  }

  /** Switching sides keeps the password and only forgets its source. */
  lemma SwitchKeeps(sha: Sha, s: Login, e: Event)
    requires e.Hash? && s.switchUuid == Some(true)
    ensures HandleHash(sha, s, e) == s.(salt := e.salt, switchUuid := None, source := Undefined)
  {
  }

  /** A try changes nothing but the password, its source and its origin. */
  ghost predicate OnlyPassword(s: Login, t: Login) {
    t == s.(password := t.password, source := t.source, origin := t.origin)
  }

  /** After the session's shared password, or with one from before, the other sources are not tried. */
  lemma LaterTries(sha: Sha, b: Login, personal: Option<Bytes>)
    requires b.password != []
    ensures TryBuiltin(sha, TryPersonal(TryConfig(b), personal)) == b
  {
  }

  lemma NoPasswordTries(sha: Sha, b: Login, personal: Option<Bytes>)
    requires NonEmptySha(sha) && b.password == [] && b.origin == NoPassword
    ensures var t := TryBuiltin(sha, TryPersonal(TryConfig(b), personal));
      && OnlyPassword(b, t) && TracksPassword(t)
      && ((t.password != [] && t.source.SharedAb?) || t.origin == Shared ==>
            b.builtin != [] && UsesShared(sha, t, b.builtin))
      && (t.source.PersonalAb? && t.password != [] ==> t.password == t.source.hash)
      && (b.config == [] && t.origin != Personal && b.builtin != [] ==> t.origin == Shared)
      && (personal == None ==> t.origin != Personal)
  {
  }

  lemma TriesDo(sha: Sha, s: Login, personal: Option<Bytes>)
    requires NonEmptySha(sha) && TracksPassword(s)
    ensures var t := AllTries(sha, s, personal);
      && OnlyPassword(s.(sharedPassword := None), t) && TracksPassword(t) && Taken(sha, s, s.salt, t)
      && (personal == None ==> t.origin != Personal || s.password != [])
  {
    var b := TryShared(sha, TryPreset(sha, s));
    if b.password != [] { LaterTries(sha, b, personal); } else { NoPasswordTries(sha, b, personal); }
  }

  lemma HashDoes(sha: Sha, s: Login, e: Event)
    requires NonEmptySha(sha) && e.Hash? && TracksPassword(s)
    ensures HashStep(sha, s, e.salt, HandleHash(sha, s, e))
    ensures e.personal == None ==> HandleHash(sha, s, e).origin != Personal || s.password != []
  {
    if s.switchUuid != Some(true) { TriesDo(sha, s.(salt := e.salt, switchUuid := None), e.personal); }
  }

  lemma HashSettled(sha: Sha, s: Login, t: Login, salts: iset<Bytes>, greeted: bool)
    requires Sound(sha, s, salts, greeted) && HashStep(sha, s, t.salt, t)
    requires t.salt in salts && s.switchUuid != Some(true)
    ensures Settled(sha, t, salts)
  {
    if Without(s.sharedPassword) && s.password != [] {
      if greeted && s.source.SharedAb? {
        assert Salted(sha, s.source.password, s.salt) == Salted(sha, s.source.password, t.salt);
      }
      assert !greeted ==> Describes(sha, s.(salt := t.salt));
      if !greeted && s.source.SharedAb? { DescribedAlike(sha, s, salts); }
    }
  }

  /** A password that every salt gives is alike under all of them. */
  lemma DescribedAlike(sha: Sha, s: Login, salts: iset<Bytes>)
    requires s.password != [] && s.source.SharedAb? && forall x :: x in salts ==> Describes(sha, s.(salt := x))
    ensures Alike(sha, s.source.password, salts)
  {
    forall salt1, salt2 | salt1 in salts && salt2 in salts
      ensures Salted(sha, s.source.password, salt1) == Salted(sha, s.source.password, salt2)
    {
      assert Describes(sha, s.(salt := salt1)) && Describes(sha, s.(salt := salt2));
    }
  }

  lemma HashStepSound(sha: Sha, s: Login, t: Login, salts: iset<Bytes>, greeted: bool)
    requires Sound(sha, s, salts, greeted) && HashStep(sha, s, t.salt, t) && t.salt in salts
    ensures Sound(sha, t, salts, true) && (Safe(s, greeted) ==> Safe(t, true))
  {
    if s.switchUuid != Some(true) { HashSettled(sha, s, t, salts, greeted); }
  }

  lemma HashSound(sha: Sha, s: Login, e: Event, salts: iset<Bytes>, greeted: bool)
    requires NonEmptySha(sha) && Sound(sha, s, salts, greeted) && e.Hash? && e.salt in salts
    ensures Sound(sha, HandleHash(sha, s, e), salts, true)
    ensures Safe(s, greeted) ==> Safe(HandleHash(sha, s, e), true)
  {
    HashDoes(sha, s, e);
    HashStepSound(sha, s, HandleHash(sha, s, e), salts, greeted);
  }

  lemma OtherSound(sha: Sha, s: Login, e: Event, salts: iset<Bytes>, greeted: bool)
    requires NonEmptySha(sha) && Sound(sha, s, salts, greeted) && !e.Hash?
    ensures Sound(sha, Step(sha, s, e), salts, greeted)
    ensures Safe(s, greeted) ==> Safe(Step(sha, s, e), greeted) && (greeted ==> !Leaks(sha, s, e))
  {
    forall x | !greeted && Survives(s) && x in salts
      ensures Describes(sha, Step(sha, s, e).(salt := x))
    {
      assert Describes(sha, s.(salt := x));
    }
  }

  /** Every message and user login, in any order, keeps the description of the password right. */
  lemma StepKeeps(sha: Sha, s: Login, e: Event, salts: iset<Bytes>, greeted: bool)
    requires NonEmptySha(sha) && Sound(sha, s, salts, greeted) && (e.Hash? ==> e.salt in salts)
    ensures Sound(sha, Step(sha, s, e), salts, greeted || e.Hash?)
    ensures Safe(s, greeted) ==> Safe(Step(sha, s, e), greeted || e.Hash?) && (greeted ==> !Leaks(sha, s, e))
  {
    if e.Hash? { HashSound(sha, s, e, salts, greeted); } else { OtherSound(sha, s, e, salts, greeted); }
  }

  // ---------------------------------------------------------------- the handlers, in place

  /** There is no password after a hash message exactly if no source has one. */
  lemma NoSource(sha: Sha, s: Login, e: Event)
    requires NonEmptySha(sha) && e.Hash?
    ensures HandleHash(sha, s, e).password == [] <==>
      && s.password == []
      && (s.switchUuid != Some(true) ==>
            && Without(s.sharedPassword) && Without(e.personal)
            && s.preset == [] && s.config == [] && s.builtin == [])
  {
  }

  /** The login configuration handler with the peer config file it writes. */
  class LoginConfigHandler {
    const sha: Sha
    ghost const salts: iset<Bytes> // those that the peer may announce
    ghost var greeted: bool        // whether it has announced one
    var salt: Bytes
    var password: Bytes
    var source: PasswordSource
    ghost var origin: Origin
    var remember: bool
    var config: Bytes
    var saved: Bytes
    var sharedPassword: Option<Bytes>
    var switchUuid: Option<bool>
    const settings: Settings

    ghost function View(): Login
      reads this
    {
      Login(salt, password, source, origin, remember, config, saved, sharedPassword, switchUuid,
            settings.preset, settings.builtin)
    }

    /** The source describes the password, and no shared password is about to be written. */
    ghost predicate Valid()
      reads this
    {
      && NonEmptySha(sha) && Sound(sha, View(), salts, greeted) && Safe(View(), greeted)
    }

    constructor (sha: Sha, saved: Bytes, token: Option<ConnToken>, shared: Option<Bytes>, switchUuid: Option<bool>,
                 settings: Settings, ghost salts: iset<Bytes>)
      ensures this.sha == sha && this.salts == salts && !greeted
      ensures View() == Initialize(saved, token, shared, switchUuid, settings)
      ensures Valid() <==>
                && NonEmptySha(sha) && Ahead(sha, View(), salts) && !SwitchesWithSharedToken(View())
                && (token.Some? && Survives(View()) ==> forall x :: x in salts ==> HonestToken(sha, token.value, x))
    {
      this.sha := sha;
      this.salts := salts;
      greeted := false;
      salt := [];
      remember := saved != [];
      config := saved;
      this.saved := saved;
      if token.Some? {
        password := token.value.password;
        source := token.value.source;
        origin := OriginOf(token.value);
      } else {
        password := [];
        source := Undefined;
        origin := NoPassword;
      }
      this.switchUuid := switchUuid;
      sharedPassword := shared;
      this.settings := settings;
      new;
      if token.Some? {
        forall x | x in salts
          ensures Describes(sha, View().(salt := x)) <==> HonestToken(sha, token.value, x)
        {
        }
      }
    }

    /** Afterwards there is no password exactly if no source has one, or if sides are switched and
        there was none before; nothing is saved. */
    method HandleHashMessage(salt: Bytes, personal: Option<Bytes>)
      modifies this
      ensures View() == Step(sha, old(View()), Hash(salt, personal)) && greeted
      ensures old(Valid()) && salt in salts ==> Valid()
      ensures saved == old(saved) && config == old(config) && remember == old(remember)
      ensures NonEmptySha(sha) ==>
                (password == [] <==>
                  && old(password) == []
                  && (old(switchUuid) != Some(true) ==>
                        && Without(old(sharedPassword)) && Without(personal)
                        && settings.preset == [] && config == [] && settings.builtin == []))
    {
      ghost var e := Hash(salt, personal);
      if Valid() && salt in salts { HashSound(sha, View(), e, salts, greeted); }
      if NonEmptySha(sha) { NoSource(sha, View(), e); }
      greeted := true;
      TakeSalt(salt, personal);
    }

    method TakeSalt(salt: Bytes, personal: Option<Bytes>)
      modifies `salt, `switchUuid, `sharedPassword, `password, `source, `origin
      ensures View() == HandleHash(sha, old(View()), Hash(salt, personal))
    {
      this.salt := salt;
      var uuid := switchUuid;
      switchUuid := None;
      if uuid == Some(true) {
        source := Undefined;
        return;
      }
      TrySources(personal);
    }

    /** The last password, then the other sources in turn. */
    method TrySources(personal: Option<Bytes>)
      modifies `sharedPassword, `password, `source, `origin
      ensures View() == AllTries(sha, old(View()), personal)
    {
      if password == [] && settings.preset != [] {
        password := sha(settings.preset + salt);
        source := Undefined;
        origin := Preset;
      }
      TakeShared();
      TakeConfig();
      if password == [] && personal.Some? && personal.value != [] {
        password := personal.value;
        source := PersonalAb(personal.value);
        origin := Personal;
      }
      if password == [] && settings.builtin != [] {
        password := sha(settings.builtin + salt);
        source := SharedAb(settings.builtin);
        origin := Shared;
      }
    }

    method TakeShared()
      modifies `sharedPassword, `password, `source, `origin
      ensures View() == TryShared(sha, old(View()))
    {
      var shared := sharedPassword;
      sharedPassword := None;
      if shared.Some? && shared.value != [] {
        password := sha(shared.value + salt);
        source := SharedAb(shared.value);
        origin := Shared;
      }
    }

    method TakeConfig()
      modifies `password, `source, `origin
      ensures View() == TryConfig(old(View()))
    {
      if password == [] {
        password := config;
        if password != [] {
          source := Undefined;
          origin := Saved;
        }
      }
    }

    /** True if the user may try again; a session without a password hands none on. */
    method HandleLoginError(error: LoginError, tryAgain: bool) returns (again: bool)
      modifies this
      ensures View() == Step(sha, old(View()), Failed(error)) && greeted == old(greeted)
      ensures old(Valid()) ==> Valid()
      ensures GetConnToken() == if error.OtherError? then old(GetConnToken()) else None
      ensures saved == old(saved) && remember == old(remember)
      ensures again == (error in {PasswordEmpty, PasswordWrong} || tryAgain)
    {
      if Valid() { OtherSound(sha, View(), Failed(error), salts, greeted); }
      if !error.OtherError? {
        password := [];
        origin := NoPassword;
        return true;
      }
      return tryAgain;
    }

    /** A typed password is never taken for a shared one; without one the user's wish to remember
        stays, and so does a password that is there. */
    method HandleLoginFromUi(typed: Bytes, remember: bool)
      modifies this
      ensures View() == Step(sha, old(View()), UiLogin(typed, remember)) && greeted == old(greeted)
      ensures old(Valid()) ==> Valid()
      ensures typed != [] ==> !IsShared() && this.remember == remember
      ensures typed == [] ==> this.remember == old(this.remember)
      ensures typed == [] && old(password) != [] ==> GetConnToken() == old(GetConnToken())
      ensures saved == old(saved)
    {
      if Valid() { OtherSound(sha, View(), UiLogin(typed, remember), salts, greeted); }
      if typed == [] {
        TakeConfig();
      } else {
        source := Undefined;
        password := sha(typed + salt);
        this.remember := remember;
        origin := Typed;
      }
    }

    /** What is saved: without "remember" the password of the personal address book or none, with
        it the current or the saved one, and from a valid state never one of shared origin. */
    method HandlePeerInfoMessage()
      modifies this
      ensures View() == Step(sha, old(View()), PeerInfo) && greeted == old(greeted)
      ensures old(Valid()) ==> Valid()
      ensures old(Valid()) && greeted && origin == Shared && saved == password ==> saved == old(saved)
      ensures old(Valid()) && greeted && !remember ==> saved == if source.PersonalAb? then password else []
      ensures remember ==> saved == if password != [] && !IsShared() then password else old(saved)
      ensures config == saved
    {
      if Valid() { OtherSound(sha, View(), PeerInfo, salts, greeted); }
      var loaded := saved;
      var before := loaded;
      if remember {
        if password != [] && password != before && !IsShared() {
          loaded := password;
        }
      } else {
        if password != [] && source == PersonalAb(password) {
          loaded := password;
        } else if before != [] {
          loaded := [];
        }
      }
      saved := loaded;
      config := loaded;
    }

    predicate IsShared()
      reads this
    {
      password != [] && source.SharedAb? && sha(source.password + salt) == password
    }

    /** What a valid session hands on is what a valid session may start from. */
    function GetConnToken(): (token: Option<ConnToken>)
      reads this
      ensures token.Some? <==> password != []
      ensures Valid() && greeted && token.Some? ==> forall x :: x in salts ==> HonestToken(sha, token.value, x)
    {
      if password == [] then None else Some(ConnToken(password, source))
    }
  }

  // ---------------------------------------------------------------- runs

  /** The peer speaks first, and its salts are from a given set. */
  ghost predicate SaltsFrom(events: seq<Event>, salts: iset<Bytes>) {
    && (events != [] ==> events[0].Hash?)
    && forall i :: 0 <= i < |events| && events[i].Hash? ==> events[i].salt in salts
  }

  /** The handler before the first message, with a token issued under one of the salts. */
  ghost predicate Start(sha: Sha, s: Login, salts: iset<Bytes>) {
    exists saved, token: Option<ConnToken>, shared, uuid, settings, salt ::
      && salt in salts && s == Initialize(saved, token, shared, uuid, settings)
      && (token.Some? ==> HonestToken(sha, token.value, salt))
  }

  /** What a start gives: a token whose password is described under some salt. */
  lemma StartMeans(sha: Sha, s: Login, salts: iset<Bytes>) returns (salt: Bytes)
    requires Start(sha, s, salts)
    ensures salt in salts && Describes(sha, s.(salt := salt)) && TracksPassword(s) && !Lost(s)
    ensures s.config == s.saved && (s.remember <==> s.saved != [])
    ensures s.origin == Shared <==> s.password != [] && s.source.SharedAb?
  {
    var saved, token: Option<ConnToken>, shared, uuid, settings, t :|
      && t in salts && s == Initialize(saved, token, shared, uuid, settings)
      && (token.Some? ==> HonestToken(sha, token.value, t));
    salt := t;
  }

  lemma {:induction false} RunMore(sha: Sha, s: Login, events: seq<Event>, e: Event)
    ensures Run(sha, s, events + [e]) == Step(sha, Run(sha, s, events), e)
  {
    assert (events + [e])[..|events|] == events;
  }

  lemma SaltsMore(events: seq<Event>, e: Event, salts: iset<Bytes>)
    ensures SaltsFrom(events + [e], salts) <==>
            SaltsFrom(events, salts) && (events == [] ==> e.Hash?) && (e.Hash? ==> e.salt in salts)
  {
    var more := events + [e];
    assert more[|events|] == e && forall i :: 0 <= i < |events| ==> more[i] == events[i];
  }

  // ---------------------------------------------------------------- passwords that a second salt can confuse

  /** The shared passwords that a session may come to use. */
  ghost predicate MayUse(s: Login, p: Bytes) {
    || (s.preset == [] && p == s.builtin)
    || s.sharedPassword == Some(p)
    || (s.password != [] && s.source == SharedAb(p) && Survives(s))
  }

  ghost predicate AllAlike(sha: Sha, s: Login, salts: iset<Bytes>) {
    forall p | p != [] && MayUse(s, p) :: Alike(sha, p, salts)
  }

  lemma StartSound(sha: Sha, s: Login, salts: iset<Bytes>)
    requires Start(sha, s, salts) && AllAlike(sha, s, salts)
    ensures Sound(sha, s, salts, false)
  {
    var salt := StartMeans(sha, s, salts);
    assert s.builtin != [] && s.preset == [] ==> MayUse(s, s.builtin);
    assert !Without(s.sharedPassword) ==> MayUse(s, s.sharedPassword.value);
    forall x | Survives(s) && x in salts
      ensures Describes(sha, s.(salt := x))
    {
      if s.password != [] && s.source.SharedAb? {
        assert MayUse(s, s.source.password);
        assert Salted(sha, s.source.password, salt) == Salted(sha, s.source.password, x);
      }
    }
  }

  lemma {:induction false} RunKeeps(sha: Sha, s: Login, events: seq<Event>, salts: iset<Bytes>)
    requires NonEmptySha(sha) && Sound(sha, s, salts, false) && SaltsFrom(events, salts)
    ensures Sound(sha, Run(sha, s, events), salts, events != [])
    ensures Safe(s, false) ==> Safe(Run(sha, s, events), events != [])
  {
    if events != [] {
      var before, last := events[..|events| - 1], events[|events| - 1];
      assert before + [last] == events;
      SaltsMore(before, last, salts);
      RunKeeps(sha, s, before, salts);
      StepKeeps(sha, Run(sha, s, before), last, salts, before != []);
    }
  }

  lemma Thrice(sha: Sha, s: Login, p: Bytes, salt1: Bytes, salt2: Bytes, t1: Login, t2: Login, t3: Login)
    requires NonEmptySha(sha) && p != [] && s.sharedPassword == Some(p)
    requires HashStep(sha, s, salt1, t1) && HashStep(sha, t1, salt1, t2) && HashStep(sha, t2, salt2, t3)
    ensures Confused(sha, t3, p, salt1, salt2) && t3.remember == s.remember && t3.saved == s.saved
  {
  }

  /** Three hash messages: whether or not sides are switched, the session's shared password is used. */
  lemma HashThrice(sha: Sha, s: Login, p: Bytes, salt1: Bytes, salt2: Bytes) returns (events: seq<Event>)
    requires NonEmptySha(sha) && p != [] && s.sharedPassword == Some(p) && TracksPassword(s)
    ensures events != []
    ensures forall salts :: salt1 in salts && salt2 in salts ==> SaltsFrom(events, salts)
    ensures Confused(sha, Run(sha, s, events), p, salt1, salt2)
    ensures Run(sha, s, events).remember == s.remember && Run(sha, s, events).saved == s.saved
  {
    var first, second := Hash(salt1, None), Hash(salt2, None);
    var t1 := HashMore(sha, s, [], first);
    var t2 := HashMore(sha, s, [] + [first], first);
    var t3 := HashMore(sha, s, [] + [first] + [first], second);
    Thrice(sha, s, p, salt1, salt2, t1, t2, t3);
    events := [] + [first] + [first] + [second];
  }

  lemma HashMore(sha: Sha, s: Login, events: seq<Event>, e: Event) returns (t: Login)
    requires NonEmptySha(sha) && e.Hash? && TracksPassword(Run(sha, s, events))
    ensures t == Run(sha, s, events + [e]) && HashStep(sha, Run(sha, s, events), e.salt, t)
    ensures e.personal == None && t.origin == Personal ==> Run(sha, s, events).password != []
  {
    RunMore(sha, s, events, e);
    t := Run(sha, s, events + [e]);
    HashDoes(sha, Run(sha, s, events), e);
  }

  /** The source no longer describes the password: another salt came. */
  ghost predicate Confused(sha: Sha, t: Login, p: Bytes, salt1: Bytes, salt2: Bytes) {
    t.salt == salt2 && t.password == Salted(sha, p, salt1) && t.source == SharedAb(p) && t.origin == Shared
  }

  lemma Between(sha: Sha, s: Login, p: Bytes, salt1: Bytes, salt2: Bytes, t1: Login, t2: Login, t3: Login, t4: Login)
    requires NonEmptySha(sha) && p != [] && s.sharedPassword == Some(p) && s.switchUuid == Some(true)
    requires HashStep(sha, s, salt1, t1) && t2 == HandleUiLogin(sha, t1, [0x61], true)
    requires HashStep(sha, t2, salt1, t3) && HashStep(sha, t3, salt2, t4)
    ensures Confused(sha, t4, p, salt1, salt2) && t4.remember && t4.saved == s.saved
  {
  }

  /** A login of the user, to be remembered, between a switch of sides and the shared password. */
  lemma LoginBetween(sha: Sha, s: Login, p: Bytes, salt1: Bytes, salt2: Bytes) returns (events: seq<Event>)
    requires NonEmptySha(sha) && p != [] && s.sharedPassword == Some(p) && s.switchUuid == Some(true)
    requires TracksPassword(s)
    ensures events != []
    ensures forall salts :: salt1 in salts && salt2 in salts ==> SaltsFrom(events, salts)
    ensures Confused(sha, Run(sha, s, events), p, salt1, salt2)
    ensures Run(sha, s, events).remember && Run(sha, s, events).saved == s.saved
  {
    var first, login, second := Hash(salt1, None), UiLogin([0x61], true), Hash(salt2, None);
    var two, three := [] + [first] + [login], [] + [first] + [login] + [first];
    var t1 := HashMore(sha, s, [], first);
    var t2 := LoginMore(sha, s, [] + [first]);
    var t3 := HashMore(sha, s, two, first);
    var t4 := HashMore(sha, s, three, second);
    Between(sha, s, p, salt1, salt2, t1, t2, t3, t4);
    events := three + [second];
    BetweenSalts(salt1, salt2);
  }

  lemma LoginMore(sha: Sha, s: Login, events: seq<Event>) returns (t: Login)
    requires NonEmptySha(sha)
    ensures t == Run(sha, s, events + [UiLogin([0x61], true)])
    ensures t == HandleUiLogin(sha, Run(sha, s, events), [0x61], true) && TracksPassword(t)
  {
    RunMore(sha, s, events, UiLogin([0x61], true));
    t := Run(sha, s, events + [UiLogin([0x61], true)]);
  }

  lemma BetweenSalts(salt1: Bytes, salt2: Bytes)
    ensures var first, login, second := Hash(salt1, None), UiLogin([0x61], true), Hash(salt2, None);
      forall salts :: salt1 in salts && salt2 in salts ==>
        SaltsFrom([] + [first] + [login] + [first] + [second], salts)
  {
    var first, login, second := Hash(salt1, None), UiLogin([0x61], true), Hash(salt2, None);
    forall salts | salt1 in salts && salt2 in salts
      ensures SaltsFrom([] + [first] + [login] + [first] + [second], salts)
    {
      SaltsMore([], first, salts);
      SaltsMore([] + [first], login, salts);
      SaltsMore([] + [first] + [login], first, salts);
      SaltsMore([] + [first] + [login] + [first], second, salts);
    }
  }

  /** Nothing is saved, and a user's password, to be remembered, is the current one. */
  ghost predicate Blank(s: Login, salt: Bytes) {
    && s.salt == salt && s.switchUuid == None && s.sharedPassword == None
    && s.saved == [] && s.config == []
    && s.remember && s.origin == Typed && s.source == Undefined && s.password != []
  }

  /** Two hash messages: switching sides and a shared password are used up. */
  lemma UseUp(sha: Sha, s: Login, salt: Bytes, t: Login, u: Login)
    requires HashStep(sha, s, salt, t) && HashStep(sha, t, salt, u)
    ensures u.salt == salt && u.switchUuid == None && u.sharedPassword == None
    ensures u.preset == s.preset && u.builtin == s.builtin
  {
  }

  /** A user who logs in without "remember" clears what was saved. */
  lemma LoginTwice(sha: Sha, t: Login, salt: Bytes)
    requires NonEmptySha(sha) && t.salt == salt && t.switchUuid == None && t.sharedPassword == None
    ensures var u := Step(sha, Step(sha, Step(sha, t, UiLogin([0x61], false)), PeerInfo), UiLogin([0x61], true));
      Blank(u, salt) && u.preset == t.preset && u.builtin == t.builtin
  {
  }

  lemma Clear(sha: Sha, s: Login, salt: Bytes) returns (events: seq<Event>)
    requires NonEmptySha(sha) && TracksPassword(s)
    ensures events != [] && forall salts :: salt in salts ==> SaltsFrom(events, salts)
    ensures var t := Run(sha, s, events); Blank(t, salt) && t.preset == s.preset && t.builtin == s.builtin
  {
    var hash, forget, keep := Hash(salt, None), UiLogin([0x61], false), UiLogin([0x61], true);
    var hashes := [] + [hash] + [hash];
    var t := HashMore(sha, s, [], hash);
    var u := HashMore(sha, s, [] + [hash], hash);
    UseUp(sha, s, salt, t, u);
    RunMore(sha, s, hashes, forget);
    RunMore(sha, s, hashes + [forget], PeerInfo);
    RunMore(sha, s, hashes + [forget] + [PeerInfo], keep);
    LoginTwice(sha, u, salt);
    events := hashes + [forget] + [PeerInfo] + [keep];
  }

  /** A wrong password makes way for the built-in one. */
  lemma FallBack(sha: Sha, t: Login, salt1: Bytes, salt2: Bytes, u: Login, v: Login)
    requires NonEmptySha(sha) && Blank(t, salt1) && t.preset == [] && t.builtin != []
    requires HashStep(sha, HandleError(t, PasswordWrong), salt1, u) && u.origin != Personal
    requires HashStep(sha, u, salt2, v)
    ensures Confused(sha, v, t.builtin, salt1, salt2) && v.remember && v.saved == []
  {
  }

  /** From any start without a preset, a second salt confuses the built-in password. */
  lemma ConfuseBuiltin(sha: Sha, s: Login, salt1: Bytes, salt2: Bytes) returns (events: seq<Event>)
    requires NonEmptySha(sha) && TracksPassword(s) && s.preset == [] && s.builtin != []
    ensures events != []
    ensures forall salts :: salt1 in salts && salt2 in salts ==> SaltsFrom(events, salts)
    ensures Confused(sha, Run(sha, s, events), s.builtin, salt1, salt2)
    ensures Run(sha, s, events).remember && Run(sha, s, events).saved == []
  {
    var clear := Clear(sha, s, salt1);
    var wrong, first, second := Failed(PasswordWrong), Hash(salt1, None), Hash(salt2, None);
    RunMore(sha, s, clear, wrong);
    var u := HashMore(sha, s, clear + [wrong], first);
    var v := HashMore(sha, s, clear + [wrong] + [first], second);
    FallBack(sha, Run(sha, s, clear), salt1, salt2, u, v);
    events := clear + [wrong] + [first] + [second];
    forall salts | salt1 in salts && salt2 in salts
      ensures SaltsFrom(events, salts)
    {
      SaltsMore(clear, wrong, salts);
      SaltsMore(clear + [wrong], first, salts);
      SaltsMore(clear + [wrong] + [first], second, salts);
    }
  }

  /** One hash message with a salt other than the token's. */
  lemma ConfuseToken(sha: Sha, s: Login, p: Bytes, salts: iset<Bytes>) returns (hash: Event)
    requires s.password != [] && s.source == SharedAb(p) && Survives(s) && !Alike(sha, p, salts)
    ensures hash.Hash? && hash.salt in salts && SaltsFrom([] + [hash], salts)
    ensures var t := Run(sha, s, [] + [hash]);
      && t == s.(salt := hash.salt, switchUuid := None, sharedPassword := None)
      && t.password != Salted(sha, p, t.salt)
  {
    var salt1, salt2 :| salt1 in salts && salt2 in salts && Salted(sha, p, salt1) != Salted(sha, p, salt2);
    hash := Hash(if Salted(sha, p, salt1) != s.password then salt1 else salt2, None);
    RunMore(sha, s, [], hash);
    SaltsMore([], hash, salts);
  }

  ghost predicate AlwaysDescribed(sha: Sha, s: Login, salts: iset<Bytes>) {
    forall events | events != [] && SaltsFrom(events, salts) :: Describes(sha, Run(sha, s, events))
  }

  lemma NotDescribed(sha: Sha, s: Login, p: Bytes, salts: iset<Bytes>)
    requires NonEmptySha(sha) && TracksPassword(s) && p != [] && MayUse(s, p) && !Alike(sha, p, salts)
    ensures !AlwaysDescribed(sha, s, salts)
  {
    var events: seq<Event>;
    if s.sharedPassword == Some(p) || (s.preset == [] && p == s.builtin) {
      var salt1, salt2 :| salt1 in salts && salt2 in salts && Salted(sha, p, salt1) != Salted(sha, p, salt2);
      if s.sharedPassword == Some(p) {
        events := HashThrice(sha, s, p, salt1, salt2);
      } else {
        events := ConfuseBuiltin(sha, s, salt1, salt2);
      }
    } else {
      var hash := ConfuseToken(sha, s, p, salts);
      events := [] + [hash];
    }
    assert SaltsFrom(events, salts) && !Describes(sha, Run(sha, s, events));
  }

  /** The recorded source describes the current password after every run, exactly if the salts make no
      difference to the shared passwords that the session may use; one salt never does. */
  lemma SourceDescribesPassword(sha: Sha, s: Login, salts: iset<Bytes>)
    requires NonEmptySha(sha) && Start(sha, s, salts)
    ensures AlwaysDescribed(sha, s, salts) <==> AllAlike(sha, s, salts)
  {
    if AllAlike(sha, s, salts) {
      StartSound(sha, s, salts);
      forall events | events != [] && SaltsFrom(events, salts)
        ensures Describes(sha, Run(sha, s, events))
      {
        RunKeeps(sha, s, events, salts);
      }
    } else {
      var p :| p != [] && MayUse(s, p) && !Alike(sha, p, salts);
      var salt := StartMeans(sha, s, salts);
      NotDescribed(sha, s, p, salts);
    }
  }

  // ---------------------------------------------------------------- shared passwords stay out of the file

  /** The shared passwords that a session may come to use while something is to be remembered. */
  ghost predicate MayLeak(s: Login, p: Bytes) {
    || (s.preset == [] && p == s.builtin)
    || (s.sharedPassword == Some(p) && (s.saved != [] || s.switchUuid == Some(true)))
    || (s.password != [] && s.source == SharedAb(p) && Survives(s) && s.saved != [] && s.password != s.saved)
  }

  ghost predicate NoneToLeak(sha: Sha, s: Login, salts: iset<Bytes>) {
    forall p | p != [] && MayLeak(s, p) :: Alike(sha, p, salts)
  }

  ghost predicate NeverLeaks(sha: Sha, s: Login, salts: iset<Bytes>) {
    forall events, e | SaltsFrom(events + [e], salts) :: !Leaks(sha, Run(sha, s, events), e)
  }

  /** A current shared password is not written, whatever salt comes next. */
  ghost predicate Kept(sha: Sha, s: Login, salts: iset<Bytes>) {
    s.origin == Shared ==>
      || !s.remember || s.password == s.saved
      || (&& s.source.SharedAb? && s.source.password != [] && Alike(sha, s.source.password, salts)
          && s.password == Salted(sha, s.source.password, s.salt))
  }

  /** And neither is one that is still to come. */
  ghost predicate Guarded(sha: Sha, s: Login, salts: iset<Bytes>) {
    && TracksPassword(s) && s.salt in salts && s.switchUuid == None && Ahead(sha, s, salts) && Kept(sha, s, salts)
  }

  /** The first hash message of a session that is not switching sides. */
  lemma FirstKept(sha: Sha, s: Login, t: Login, salts: iset<Bytes>)
    requires Start(sha, s, salts) && NoneToLeak(sha, s, salts)
    requires HashStep(sha, s, t.salt, t) && t.salt in salts && s.switchUuid != Some(true)
    ensures Kept(sha, t, salts)
  {
    var salt := StartMeans(sha, s, salts);
    assert s.preset == [] && s.builtin != [] ==> MayLeak(s, s.builtin);
    if !Without(s.sharedPassword) {
      assert s.saved != [] ==> MayLeak(s, s.sharedPassword.value);
    } else if s.password != [] && s.source.SharedAb? && s.saved != [] && s.password != s.saved {
      assert MayLeak(s, s.source.password);
      assert Salted(sha, s.source.password, salt) == Salted(sha, s.source.password, t.salt);
    }
  }

  lemma FirstGuarded(sha: Sha, s: Login, t: Login, salts: iset<Bytes>)
    requires Start(sha, s, salts) && NoneToLeak(sha, s, salts) && !SwitchesWithSharedToken(s)
    requires HashStep(sha, s, t.salt, t) && t.salt in salts
    ensures Guarded(sha, t, salts)
  {
    var salt := StartMeans(sha, s, salts);
    assert s.preset == [] && s.builtin != [] ==> MayLeak(s, s.builtin);
    if s.switchUuid == Some(true) {
      assert !Without(s.sharedPassword) ==> MayLeak(s, s.sharedPassword.value);
    } else {
      FirstKept(sha, s, t, salts);
    }
  }

  lemma NextGuarded(sha: Sha, s: Login, t: Login, salts: iset<Bytes>)
    requires Guarded(sha, s, salts) && HashStep(sha, s, t.salt, t) && t.salt in salts
    ensures Guarded(sha, t, salts)
  {
    if s.source.SharedAb? && Alike(sha, s.source.password, salts) {
      assert Salted(sha, s.source.password, s.salt) == Salted(sha, s.source.password, t.salt);
    }
  }

  lemma StepGuarded(sha: Sha, s: Login, e: Event, salts: iset<Bytes>)
    requires NonEmptySha(sha) && Guarded(sha, s, salts) && (e.Hash? ==> e.salt in salts)
    ensures Guarded(sha, Step(sha, s, e), salts) && !Leaks(sha, s, e)
  {
    if e.Hash? {
      HashDoes(sha, s, e);
      NextGuarded(sha, s, HandleHash(sha, s, e), salts);
    }
  }

  lemma {:induction false} RunGuarded(sha: Sha, s: Login, events: seq<Event>, salts: iset<Bytes>)
    requires NonEmptySha(sha) && Start(sha, s, salts) && NoneToLeak(sha, s, salts) && !SwitchesWithSharedToken(s)
    requires SaltsFrom(events, salts) && events != []
    ensures Guarded(sha, Run(sha, s, events), salts)
  {
    var before, last := events[..|events| - 1], events[|events| - 1];
    assert before + [last] == events;
    SaltsMore(before, last, salts);
    if before == [] {
      assert Run(sha, s, before) == s;
      var salt := StartMeans(sha, s, salts);
      HashDoes(sha, s, last);
      FirstGuarded(sha, s, HandleHash(sha, s, last), salts);
    } else {
      RunGuarded(sha, s, before, salts);
      StepGuarded(sha, Run(sha, s, before), last, salts);
    }
  }

  lemma SwitchLeaks(sha: Sha, s: Login, salts: iset<Bytes>)
    requires Start(sha, s, salts) && SwitchesWithSharedToken(s)
    ensures !NeverLeaks(sha, s, salts)
  {
    var salt :| salt in salts;
    var hash := Hash(salt, None);
    RunMore(sha, s, [], hash);
    SaltsMore([], hash, salts);
    SaltsMore([] + [hash], PeerInfo, salts);
    assert Leaks(sha, Run(sha, s, [] + [hash]), PeerInfo);
  }

  /** A confused state in which something new is to be remembered writes the shared password. */
  lemma {:induction false} ConfusedLeaks(sha: Sha, s: Login, events: seq<Event>, p: Bytes, salt1: Bytes, salt2: Bytes,
                                         salts: iset<Bytes>)
    requires NonEmptySha(sha) && events != [] && SaltsFrom(events, salts)
    requires Confused(sha, Run(sha, s, events), p, salt1, salt2) && Salted(sha, p, salt1) != Salted(sha, p, salt2)
    requires var t := Run(sha, s, events); t.remember && t.password != t.saved
    ensures !NeverLeaks(sha, s, salts)
  {
    SaltsMore(events, PeerInfo, salts);
    assert Leaks(sha, Run(sha, s, events), PeerInfo);
  }

  /** The session's shared password leaks if something is saved, or if the user can log in first. */
  lemma SharedLeaks(sha: Sha, s: Login, p: Bytes, salts: iset<Bytes>)
    requires NonEmptySha(sha) && Start(sha, s, salts) && p != [] && !Alike(sha, p, salts)
    requires s.sharedPassword == Some(p) && (s.saved != [] || s.switchUuid == Some(true))
    ensures !NeverLeaks(sha, s, salts)
  {
    var salt := StartMeans(sha, s, salts);
    var salt1, salt2 :| salt1 in salts && salt2 in salts && Salted(sha, p, salt1) != Salted(sha, p, salt2);
    if Salted(sha, p, salt1) == s.saved { salt1, salt2 := salt2, salt1; }
    var events: seq<Event>;
    if s.saved != [] {
      events := HashThrice(sha, s, p, salt1, salt2);
    } else {
      events := LoginBetween(sha, s, p, salt1, salt2);
    }
    ConfusedLeaks(sha, s, events, p, salt1, salt2, salts);
  }

  lemma BuiltinLeaks(sha: Sha, s: Login, salts: iset<Bytes>)
    requires NonEmptySha(sha) && TracksPassword(s) && s.preset == [] && s.builtin != []
    requires !Alike(sha, s.builtin, salts)
    ensures !NeverLeaks(sha, s, salts)
  {
    var p := s.builtin;
    var salt1, salt2 :| salt1 in salts && salt2 in salts && Salted(sha, p, salt1) != Salted(sha, p, salt2);
    var events := ConfuseBuiltin(sha, s, salt1, salt2);
    ConfusedLeaks(sha, s, events, p, salt1, salt2, salts);
  }

  lemma TokenLeaks(sha: Sha, s: Login, p: Bytes, salts: iset<Bytes>)
    requires Start(sha, s, salts) && !Alike(sha, p, salts)
    requires s.password != [] && s.source == SharedAb(p) && Survives(s) && s.saved != [] && s.password != s.saved
    ensures !NeverLeaks(sha, s, salts)
  {
    var salt := StartMeans(sha, s, salts);
    var hash := ConfuseToken(sha, s, p, salts);
    SaltsMore([] + [hash], PeerInfo, salts);
    assert Leaks(sha, Run(sha, s, [] + [hash]), PeerInfo);
  }

  /** A password of shared origin is never written to the peer config, over all runs with salts from
      a set, exactly when the session does not switch sides with an unsaved shared password in its
      token and the salts make no difference to the shared passwords that it may use while something
      is to be remembered. */
  lemma SharedNeverSaved(sha: Sha, s: Login, salts: iset<Bytes>)
    requires NonEmptySha(sha) && Start(sha, s, salts)
    ensures NeverLeaks(sha, s, salts) <==> !SwitchesWithSharedToken(s) && NoneToLeak(sha, s, salts)
  {
    if SwitchesWithSharedToken(s) {
      SwitchLeaks(sha, s, salts);
    } else if !NoneToLeak(sha, s, salts) {
      var p :| p != [] && MayLeak(s, p) && !Alike(sha, p, salts);
      var salt := StartMeans(sha, s, salts);
      if s.preset == [] && p == s.builtin {
        BuiltinLeaks(sha, s, salts);
      } else if s.sharedPassword == Some(p) {
        SharedLeaks(sha, s, p, salts);
      } else {
        TokenLeaks(sha, s, p, salts);
      }
    } else {
      forall events, e | SaltsFrom(events + [e], salts)
        ensures !Leaks(sha, Run(sha, s, events), e)
      {
        SaltsMore(events, e, salts);
        if events != [] {
          RunGuarded(sha, s, events, salts);
          StepGuarded(sha, Run(sha, s, events), e, salts);
        }
      }
    }
  }

  /** In particular a session without any shared password is safe, whatever the salts. */
  lemma NoSharedPassword(sha: Sha, s: Login, salts: iset<Bytes>)
    requires NonEmptySha(sha) && Start(sha, s, salts)
    requires s.builtin == [] && Without(s.sharedPassword) && (s.password == [] || !s.source.SharedAb?)
    ensures NeverLeaks(sha, s, salts)
  {
    var salt := StartMeans(sha, s, salts);
    SharedNeverSaved(sha, s, salts);
  }

  /** Without collisions the salts make no difference exactly if there is at most one. */
  lemma OneSalt(sha: Sha, p: Bytes, salts: iset<Bytes>)
    requires forall x, y :: sha(x) == sha(y) ==> x == y
    ensures Alike(sha, p, salts) <==> forall salt1, salt2 :: salt1 in salts && salt2 in salts ==> salt1 == salt2
  {
    if Alike(sha, p, salts) {
      forall salt1, salt2 | salt1 in salts && salt2 in salts
        ensures salt1 == salt2
      {
        assert Salted(sha, p, salt1) == Salted(sha, p, salt2);
        assert (p + salt1)[|p|..] == salt1 && (p + salt2)[|p|..] == salt2;
      }
    }
  }

  // ---------------------------------------------------------------- what a login leaves behind

  ghost predicate PersonalIs(s: Login) {
    s.password != [] && s.source.PersonalAb? ==> s.password == s.source.hash
  }

  lemma {:induction false} RunPersonal(sha: Sha, s: Login, events: seq<Event>)
    requires PersonalIs(s)
    ensures PersonalIs(Run(sha, s, events))
  {
    if events != [] { RunPersonal(sha, s, events[..|events| - 1]); }
  }

  /** A login with "remember" off leaves the saved password empty, unless the password is the one
      of the personal address book, which it then leaves; whatever came before. */
  lemma {:induction false} RememberOff(sha: Sha, s: Login, events: seq<Event>, salts: iset<Bytes>)
    requires Start(sha, s, salts) && !Run(sha, s, events).remember
    ensures var t := Run(sha, s, events);
      && (!t.source.PersonalAb? || t.password == [] ==> Step(sha, t, PeerInfo).saved == [])
      && (t.source.PersonalAb? && t.password != [] ==> Step(sha, t, PeerInfo).saved == t.source.hash)
  {
    RunPersonal(sha, s, events);
  }

  /** A typed password is what gets saved, or not, as the user asked. */
  lemma TypedPassword(sha: Sha, s: Login, typed: Bytes, remember: bool)
    requires NonEmptySha(sha) && typed != []
    ensures var t := Step(sha, Step(sha, s, UiLogin(typed, remember)), PeerInfo);
      t.saved == if remember then Salted(sha, typed, s.salt) else []
  {
  }
}
