/** The shared error codes of the services and the message table the
    gateway uses to turn a code into text. */
module Xerr {
  type uint32 = x: int | 0 <= x < 0x1_0000_0000

  /** The coded errors the services return. */
  datatype CodeError =
    | ServerCommon | RequestParam | TokenExpire | TokenGenerate | DbError
    | DbUpdateAffectedZero | InvalidParameter | FileNotFound | JwtError
    | UserAlreadyExists | UserRegisterFailed | UserNotFound | UserPassword | GenerateToken
    | ConversationNotFound | MessageNotFound | ConversationAccessDenied
    | LlmApiError | LlmApiCancel | LlmInterruptEventNotSet | LlmInterruptEventNotFound

  const OkCode: uint32 := 200

  function Code(e: CodeError): uint32 {
    match e
    case ServerCommon => 100001
    case RequestParam => 100002
    case TokenExpire => 100003
    case TokenGenerate => 100004
    case DbError => 100005
    case DbUpdateAffectedZero => 100006
    case InvalidParameter => 100007
    case FileNotFound => 100009
    case JwtError => 100008
    case UserAlreadyExists => 200101
    case UserRegisterFailed => 200102
    case UserNotFound => 200201
    case UserPassword => 200202
    case GenerateToken => 200301
    case ConversationNotFound => 300101
    case MessageNotFound => 300102
    case ConversationAccessDenied => 300103
    case LlmApiError => 300104
    case LlmApiCancel => 300105
    case LlmInterruptEventNotSet => 300106
    case LlmInterruptEventNotFound => 300107
  }

  /** The text each coded error carries with it. */
  function OwnMessage(e: CodeError): string {
    match e
    case ServerCommon => "服务器开小差啦,稍后再来试一试"
    case RequestParam => "参数错误"
    case TokenExpire => "token失效，请重新登陆"
    case TokenGenerate => "生成token失败"
    case DbError => "数据库繁忙,请稍后再试"
    case DbUpdateAffectedZero => "更新数据影响行数为0"
    case InvalidParameter => "非法参数"
    case FileNotFound => "未找到文件"
    case JwtError => "鉴权失败"
    case UserAlreadyExists => "用户已存在"
    case UserRegisterFailed => "用户注册失败,请稍后再试"
    case UserNotFound => "用户不存在"
    case UserPassword => "密码错误"
    case GenerateToken => "生成token失败,请稍后再试"
    case ConversationNotFound => "会话不存在"
    case MessageNotFound => "消息不存在"
    case ConversationAccessDenied => "访问被拒绝，无法访问该会话"
    case LlmApiError => "大模型API繁忙"
    case LlmApiCancel => "大模型API请求取消"
    case LlmInterruptEventNotSet => "未成功设置中断事件"
    case LlmInterruptEventNotFound => "中断事件已过期"
  }

  const DefaultMessage := "服务器开小差啦,稍后再来试一试"

  /** The table filled at package initialisation: the success code, the
      global codes and the user-module codes. */
  const Table: map<uint32, string> := map[
    200 := "SUCCESS",
    100001 := "服务器开小差啦,稍后再来试一试",
    100002 := "参数错误",
    100003 := "token失效，请重新登陆",
    100004 := "生成token失败",
    100005 := "数据库繁忙,请稍后再试",
    100006 := "更新数据影响行数为0",
    100007 := "非法参数",
    200301 := "生成token失败,请稍后再试",
    200101 := "用户已存在",
    200102 := "用户注册失败,请稍后再试",
    200201 := "用户不存在",
    200202 := "密码错误"
  ]

  /** The errors whose codes the table registers. */
  predicate Registered(e: CodeError) {
    e.ServerCommon? || e.RequestParam? || e.TokenExpire? || e.TokenGenerate? || e.DbError?
    || e.DbUpdateAffectedZero? || e.InvalidParameter?
    || e.UserAlreadyExists? || e.UserRegisterFailed? || e.UserNotFound? || e.UserPassword? || e.GenerateToken?
  }

  /** `MapErrMsg`: the text of a code. The success code reads "SUCCESS";
      the code of a registered error reads as that error's own text; the
      code of any other error, and any code no error has, reads as the
      generic server message. */
  function MapErrMsg(code: uint32): (r: string)
    ensures code == OkCode ==> r == "SUCCESS"
    ensures forall e: CodeError | Code(e) == code :: r == (if Registered(e) then OwnMessage(e) else DefaultMessage)
    ensures code != OkCode && (forall e: CodeError :: Code(e) != code) ==> r == DefaultMessage
  {
    RegisteredCodes(code);
    if code in Table then Table[code] else DefaultMessage
  }

  /** `IsCodeErr`: whether the code is registered, which holds of the
      success code and of the codes of the registered errors only. */
  function IsCodeErr(code: uint32): (r: bool)
    ensures code == OkCode ==> r
    ensures forall e: CodeError | Code(e) == code :: r <==> Registered(e)
    ensures code != OkCode && (forall e: CodeError :: Code(e) != code) ==> !r
  {
    RegisteredCodes(code);
    code in Table
  }

  /** The keys of the table: the success code and the codes of the
      registered errors, each with that error's text. */
  lemma RegisteredCodes(code: uint32)
    ensures code in Table && code != OkCode ==>
      exists e: CodeError :: Code(e) == code && Registered(e) && Table[code] == OwnMessage(e)
  {
    if code in Table && code != OkCode {
      var e :=
        if code == 100001 then ServerCommon else if code == 100002 then RequestParam
        else if code == 100003 then TokenExpire else if code == 100004 then TokenGenerate
        else if code == 100005 then DbError else if code == 100006 then DbUpdateAffectedZero
        else if code == 100007 then InvalidParameter else if code == 200101 then UserAlreadyExists
        else if code == 200102 then UserRegisterFailed else if code == 200201 then UserNotFound
        else if code == 200202 then UserPassword else GenerateToken;
      assert Code(e) == code && Registered(e) && Table[code] == OwnMessage(e);
    }
  }

  /** The table agrees with the errors themselves: a registered error's code
      maps to that error's own text, and every other error (the file, JWT
      and conversation errors) falls back to the generic message. */
  lemma TableAgreesWithErrors(e: CodeError)
    ensures IsCodeErr(Code(e)) <==> Registered(e)
    ensures Registered(e) ==> MapErrMsg(Code(e)) == OwnMessage(e)
    ensures !Registered(e) ==> MapErrMsg(Code(e)) == DefaultMessage
  {
  }

  /** Every code that `IsCodeErr` rejects maps to the generic message, and
      the success code is registered as "SUCCESS". */
  lemma UnregisteredIsDefault(code: uint32)
    ensures !IsCodeErr(code) ==> MapErrMsg(code) == DefaultMessage
    ensures IsCodeErr(OkCode) && MapErrMsg(OkCode) == "SUCCESS"
  {
  }

  /** No two errors share a code. */
  lemma CodesDistinct(e1: CodeError, e2: CodeError)
    ensures Code(e1) == Code(e2) ==> e1 == e2
  {
  }
}
