/** The usercenter rpc `Register` and `Login` (rpc/internal/logic/registerLogic.go
    and loginLogic.go) over a user table. MD5 and token generation are
    parameters. */
module Users {
  import opened Wrappers
  import opened Xerr
  import Utf8
  import Krand

  datatype User = User(id: int, mobile: string, nickname: string, password: string)

  /** The user table, and the id the next insert is given. */
  datatype Db = Db(users: seq<User>, nextId: int)

  /** Which database calls fail: the lookup by mobile, the insert, and
      reading the inserted row's id. */
  datatype Faults = Faults(lookupFails: bool, insertFails: bool, idFails: bool)

  datatype Token = Token(accessToken: string, accessExpire: int, refreshAfter: int)

  /** `GenerateToken` for a user id; `None` when it fails. */
  type TokenIssuer = int -> Option<Token>

  /** `Md5ByString`. */
  type Md5 = string -> string

  const MobileLen := 11
  const NicknamePrefix := "用户"

  /** `FindOneByMobile`: the first user with the mobile. */
  function Find(users: seq<User>, mobile: string): (r: Option<User>)
    ensures r.None? <==> forall i | 0 <= i < |users| :: users[i].mobile != mobile
    ensures r.Some? ==> exists i | 0 <= i < |users| ::
      (users[i] == r.value && r.value.mobile == mobile && forall j | 0 <= j < i :: users[j].mobile != mobile)
  {
    if |users| == 0 then None
    else if users[0].mobile == mobile then Some(users[0])
    else
      var r := Find(users[1..], mobile);
      if r.Some? then
        ghost var i :| 0 <= i < |users[1..]| && users[1..][i] == r.value && r.value.mobile == mobile &&
          forall j | 0 <= j < i :: users[1..][j].mobile != mobile;
        assert users[i + 1] == r.value;
        r
      else r
  }

  /** No two users share a mobile. */
  predicate UniqueMobiles(users: seq<User>) {
    forall i, j | 0 <= i < j < |users| :: users[i].mobile != users[j].mobile
  }

  predicate IsLetter(c: char) {
    'a' <= c <= 'z' || 'A' <= c <= 'Z'
  }

  /** ASCII bytes as text. */
  function AsciiText(bs: seq<Utf8.byte>): (r: string)
    ensures |r| == |bs|
    ensures forall i | 0 <= i < |bs| :: r[i] as int == bs[i]
  {
    seq(|bs|, i requires 0 <= i < |bs| => bs[i] as char)
  }

  /** `Register`. `draws` feeds the nickname's random letters. Besides the
      answer, the table afterwards. */
  method Register(db: Db, faults: Faults, mobile: string, nickname: string, password: string,
                  draws: seq<nat>, md5: Md5, tokens: TokenIssuer)
    returns (r: Result<Token, CodeError>, db': Db)
    requires |draws| >= 4
    ensures r == Err(InvalidParameter) <==> Utf8.ByteLen(mobile) != MobileLen
    ensures r == Err(UserAlreadyExists) <==>
      Utf8.ByteLen(mobile) == MobileLen && !faults.lookupFails && Find(db.users, mobile).Some?
    ensures db'.users != db.users <==>
      Utf8.ByteLen(mobile) == MobileLen && !faults.lookupFails && Find(db.users, mobile).None? && !faults.insertFails
    ensures db'.users != db.users ==>
      && |db'.users| == |db.users| + 1 && db'.users[..|db.users|] == db.users && db'.nextId == db.nextId + 1
      && var u := db'.users[|db.users|];
      && u.id == db.nextId && u.mobile == mobile
      && (password == "" ==> u.password == "")
      && (password != "" ==> u.password == md5(password))
      && (nickname != "" ==> u.nickname == "")
      && (nickname == "" ==>
            (|u.nickname| == 6 && u.nickname[..2] == NicknamePrefix && forall i | 2 <= i < 6 :: IsLetter(u.nickname[i])))
    ensures db'.users == db.users ==> db' == db
    ensures r == Err(DbError) <==>
      Utf8.ByteLen(mobile) == MobileLen &&
      (faults.lookupFails || (Find(db.users, mobile).None? && (faults.insertFails || faults.idFails)))
    ensures r.Ok? <==> db'.users != db.users && !faults.idFails && tokens(db.nextId).Some?
    ensures r.Ok? ==> r.value == tokens(db.nextId).value
    ensures r.Err? && r.error == GenerateToken <==> db'.users != db.users && !faults.idFails && tokens(db.nextId).None?
  {
    if Utf8.ByteLen(mobile) != MobileLen {
      return Err(InvalidParameter), db;
    }
    if faults.lookupFails {
      return Err(DbError), db;
    }
    if Find(db.users, mobile).Some? {
      return Err(UserAlreadyExists), db;
    }
    var nick := DrawNickname(nickname, draws);
    var stored := if |password| > 0 then md5(password) else "";
    if faults.insertFails {
      return Err(DbError), db;
    }
    var u := User(db.nextId, mobile, nick, stored);
    db' := Db(db.users + [u], db.nextId + 1);
    assert db'.users[|db.users|] == u;
    if faults.idFails {
      return Err(DbError), db';
    }
    var tok := tokens(u.id);
    if tok.None? {
      return Err(GenerateToken), db';
    }
    return Ok(tok.value), db';
  }

  /** The nickname stored for a new user: none when one was supplied (the
      supplied one is not copied), otherwise the prefix and four random
      letters. */
  method DrawNickname(nickname: string, draws: seq<nat>) returns (nick: string)
    requires |draws| >= 4
    ensures nickname != "" ==> nick == ""
    ensures nickname == "" ==>
      |nick| == 6 && nick[..2] == NicknamePrefix && forall i | 2 <= i < 6 :: IsLetter(nick[i])
  {
    nick := "";
    if |nickname| == 0 {
      Krand.LettersAreAscii();
      var letters := Krand.RandomString(4, Krand.Letters, draws);
      if letters.Ok? {
        nick := NicknamePrefix + AsciiText(letters.value);
        assert nick[..2] == NicknamePrefix;
        assert forall i | 2 <= i < 6 :: nick[i] as int == letters.value[i - 2];
        assert forall i | 2 <= i < 6 :: Krand.IsAsciiLetter(nick[i] as int);
      }
    }
  }

  /** `Login`: `loginByMobile`, then a token for the user found. */
  function Login(users: seq<User>, lookupFails: bool, mobile: string, password: string,
                 md5: Md5, tokens: TokenIssuer): (r: Result<Token, CodeError>)
    ensures r == Err(DbError) <==> lookupFails
    ensures r == Err(UserNotFound) <==> !lookupFails && forall i | 0 <= i < |users| :: users[i].mobile != mobile
    ensures r == Err(UserPassword) <==>
      !lookupFails && Find(users, mobile).Some? && md5(password) != Find(users, mobile).value.password
    ensures r.Ok? <==>
      !lookupFails && Find(users, mobile).Some? && md5(password) == Find(users, mobile).value.password &&
      tokens(Find(users, mobile).value.id).Some?
    ensures r == Err(GenerateToken) <==>
      !lookupFails && Find(users, mobile).Some? && md5(password) == Find(users, mobile).value.password &&
      tokens(Find(users, mobile).value.id).None?
    ensures r.Ok? ==> r.value == tokens(Find(users, mobile).value.id).value
  {
    if lookupFails then Err(DbError)
    else match Find(users, mobile)
      case None => Err(UserNotFound)
      case Some(u) =>
        if md5(password) != u.password then Err(UserPassword)
        else match tokens(u.id)
          case None => Err(GenerateToken)
          case Some(t) => Ok(t)
  }

  /** A user who registers with a password can then log in with it, and
      gets the token of the row just inserted. */
  method RegisterThenLogin(db: Db, faults: Faults, mobile: string, nickname: string, password: string,
                           draws: seq<nat>, md5: Md5, tokens: TokenIssuer)
    returns (registered: Result<Token, CodeError>, loggedIn: Result<Token, CodeError>)
    requires |draws| >= 4
    ensures registered.Ok? && password != "" ==> loggedIn == registered
  {
    var db';
    registered, db' := Register(db, faults, mobile, nickname, password, draws, md5, tokens);
    loggedIn := Login(db'.users, false, mobile, password, md5, tokens);
    if registered.Ok? {
      FindAppended(db.users, db'.users[|db.users|], mobile);
    }
  }

  /** A mobile nobody has yet is found on the row appended for it. */
  lemma FindAppended(users: seq<User>, u: User, mobile: string)
    requires Find(users, mobile).None? && u.mobile == mobile
    ensures Find(users + [u], mobile) == Some(u)
  {
    var all := users + [u];
    assert forall i | 0 <= i < |users| :: all[i] == users[i];
    assert all[|users|] == u;
  }

  /** Registering keeps mobiles unique: a second registration with the
      same mobile is refused. */
  method RegisterKeepsUnique(db: Db, faults: Faults, mobile: string, nickname: string, password: string,
                             draws: seq<nat>, md5: Md5, tokens: TokenIssuer)
    returns (db': Db)
    requires |draws| >= 4
    requires UniqueMobiles(db.users)
    ensures UniqueMobiles(db'.users)
  {
    var r;
    r, db' := Register(db, faults, mobile, nickname, password, draws, md5, tokens);
    if db'.users != db.users {
      var u := db'.users[|db.users|];
      assert forall i | 0 <= i < |db.users| :: db'.users[i] == db.users[i];
      assert forall i | 0 <= i < |db.users| :: db.users[i].mobile != u.mobile;
    }
  }

  /** Registering without a password leaves an account nobody can log in
      to: the stored password is empty, and no MD5 digest is. */
  lemma EmptyPasswordLocked(users: seq<User>, u: User, mobile: string, password: string,
                            md5: Md5, tokens: TokenIssuer)
    requires forall s :: md5(s) != ""
    requires Find(users, mobile) == Some(u) && u.password == ""
    ensures Login(users, false, mobile, password, md5, tokens) == Err(UserPassword)
  {
  }
}
