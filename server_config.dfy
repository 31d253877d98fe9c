/** The server's start-up choices: the MongoDB connection string with the
    credentials spliced in, the rate-limit ceiling outside production, and
    the body the error handler sends. */
module ServerConfig {
  import opened Text

  // ---------------------------------------------------------------- connection string

  const DefaultProtocol := "mongodb"
  const DefaultHost := "localhost:27017/portfolio"
  /** "mongodb://localhost:27017/portfolio" */
  const DefaultMongoUri := DefaultProtocol + Sep + DefaultHost
  const Sep := "://"
  const MongoPrefix := "mongodb://"

  /** `process.env.MONGODB_URI || "mongodb://localhost:27017/portfolio"`. */
  function BaseUri(envUri: Option<string>): (u: string)
    ensures Truthy(envUri) ==> u == envUri.value
    ensures !Truthy(envUri) ==> u == DefaultMongoUri
  {
    OrElse(envUri, Some(DefaultMongoUri)).value
  }

  /** The text before the first separator, or "mongodb" without one. */
  function Protocol(uri: string): string {
    if Includes(uri, Sep) then Split(uri, Sep)[0] else "mongodb"
  }

  /** The second piece of the split on the separator, or the URI with
      "mongodb://" removed when there is no separator. */
  function HostAndPath(uri: string): string {
    if Includes(uri, Sep) then Split(uri, Sep)[1] else ReplaceFirst(uri, MongoPrefix, "")
  }

  /** The string `connectDB` connects with: the base URI, rebuilt around
      `user:password@` when both credentials are set. */
  function MongoUri(envUri: Option<string>, user: Option<string>, password: Option<string>): (r: string)
    ensures !(Truthy(user) && Truthy(password)) ==> r == BaseUri(envUri)
  {
    var base := BaseUri(envUri);
    if Truthy(user) && Truthy(password) then
      Protocol(base) + Sep + user.value + ":" + password.value + "@" + HostAndPath(base)
    else base
  }

  /** A string in which no ':' is followed by '/' has no separator in it. */
  lemma {:induction false} NoColonSlashFree(s: string)
    requires forall i :: 0 <= i < |s| - 1 ==> !(s[i] == ':' && s[i + 1] == '/')
    ensures !Includes(s, Sep)
  {
    forall j | 0 <= j && j + 3 <= |s| ensures !OccursAt(s, Sep, j) {
      assert !(s[j] == ':' && s[j + 1] == '/');
      assert s[j..j + 3][0] == s[j] && s[j..j + 3][1] == s[j + 1];
    }
  }

  /** The first separator of `p + rest`, where `rest` starts with one and
      `p` has none, is the one `rest` starts with. */
  lemma {:induction false} FirstSeparatorAfter(p: string, rest: string)
    requires !Includes(p, Sep)
    requires |rest| >= 3 && rest[..3] == Sep
    ensures Find(p + rest, Sep) == Some(|p|)
    ensures Split(p + rest, Sep) == [p] + Split(rest[3..], Sep)
  {
    var s := p + rest;
    assert s[|p|..|p| + 3] == rest[..3];
    assert OccursAt(s, Sep, |p|);
    forall j | 0 <= j < |p| ensures !OccursAt(s, Sep, j) {
      if j + 3 <= |p| {
        assert s[j..j + 3] == p[j..j + 3];
        assert !OccursAt(p, Sep, j);
      } else if j == |p| - 1 {
        assert s[j..j + 3][1] == rest[0] == ':';
      } else {
        assert s[j..j + 3][2] == rest[0] == ':';
      }
    }
    assert s[..|p|] == p;
    assert s[|p| + 3..] == rest[3..];
  }

  /** Credentials are spliced in between the protocol and the rest of a
      well-formed URI `p://h`. */
  lemma {:induction false} SpliceWellFormed(p: string, h: string, u: string, pw: string)
    requires !Includes(p, Sep) && !Includes(h, Sep) && p + Sep + h != ""
    requires u != "" && pw != ""
    ensures MongoUri(Some(p + Sep + h), Some(u), Some(pw)) == p + Sep + u + ":" + pw + "@" + h
  {
    var uri := p + Sep + h;
    assert uri == p + (Sep + h);
    FirstSeparatorAfter(p, Sep + h);
    assert (Sep + h)[3..] == h;
    assert Split(uri, Sep) == [p, h];
  }

  /** Everything after a second separator is lost. */
  lemma {:induction false} SecondSeparatorLost(p: string, h: string, t: string, u: string, pw: string)
    requires !Includes(p, Sep) && !Includes(h, Sep)
    requires u != "" && pw != ""
    ensures MongoUri(Some(p + Sep + h + Sep + t), Some(u), Some(pw)) == p + Sep + u + ":" + pw + "@" + h
  {
    SplitTwoSeparators(p, h, t);
  }

  /** The first two pieces of `p://h://t` are `p` and `h`. */
  lemma {:induction false} SplitTwoSeparators(p: string, h: string, t: string)
    requires !Includes(p, Sep) && !Includes(h, Sep)
    ensures var uri := p + Sep + h + Sep + t;
      Includes(uri, Sep) && |Split(uri, Sep)| >= 2 && Split(uri, Sep)[0] == p && Split(uri, Sep)[1] == h
  {
    var tail := h + (Sep + t);
    assert p + Sep + h + Sep + t == p + (Sep + tail);
    assert Split(p + (Sep + tail), Sep) == [p] + Split(tail, Sep) by {
      FirstSeparatorAfter(p, Sep + tail);
      assert (Sep + tail)[3..] == tail;
    }
    assert Split(tail, Sep)[0] == h by {
      FirstSeparatorAfter(h, Sep + t);
    }
  }

  /** A URI without a separator keeps its text whole behind the default
      protocol. */
  lemma {:induction false} NoSeparatorDefaultsProtocol(uri: string, u: string, pw: string)
    requires !Includes(uri, Sep) && uri != ""
    requires u != "" && pw != ""
    ensures MongoUri(Some(uri), Some(u), Some(pw)) == "mongodb" + Sep + u + ":" + pw + "@" + uri
  {
    forall j | 0 <= j && j + |MongoPrefix| <= |uri| ensures !OccursAt(uri, MongoPrefix, j) {
      assert !OccursAt(uri, Sep, j + 7);
      assert uri[j..j + 10][7..10] == uri[j + 7..j + 10];
      assert MongoPrefix[7..10] == Sep;
    }
    assert ReplaceFirst(uri, MongoPrefix, "") == uri;
  }

  /** With no URI configured, the credentials go into the local default. */
  lemma {:induction false} DefaultWithCredentials(u: string, pw: string)
    requires u != "" && pw != ""
    ensures MongoUri(None, Some(u), Some(pw)) == DefaultProtocol + Sep + u + ":" + pw + "@" + DefaultHost
  {
    DefaultPartsFree();
    SpliceWellFormed(DefaultProtocol, DefaultHost, u, pw);
  }

  /** Neither part of the default URI contains a separator. */
  lemma {:induction false} DefaultPartsFree()
    ensures !Includes(DefaultProtocol, Sep) && !Includes(DefaultHost, Sep)
  {
    NoColonSlashFree(DefaultProtocol);
    NoColonSlashFree(DefaultHost);
  }

  // ---------------------------------------------------------------- rate limits

  /** The window both limiters use: fifteen minutes. */
  const RateWindowMs := 15 * 60 * 1000
  const ContactRequestMax := 5
  const ApiRequestMax := 100

  /** `NODE_ENV === "production" ? max : max * 10`. */
  function RateLimitMax(nodeEnv: Option<string>, max: nat): (r: nat)
    ensures r >= max
    ensures r == max <==> nodeEnv == Some("production") || max == 0
    ensures nodeEnv != Some("production") ==> r == 10 * max
  {
    if nodeEnv == Some("production") then max else max * 10
  }

  /** Outside production, an unset environment included, the contact form
      allows 50 requests and the API 1000 per window. */
  lemma {:induction false} DevelopmentLimits(nodeEnv: Option<string>)
    requires nodeEnv != Some("production")
    ensures RateLimitMax(nodeEnv, ContactRequestMax) == 50
    ensures RateLimitMax(nodeEnv, ApiRequestMax) == 1000
  {
  }

  // ---------------------------------------------------------------- error handler

  datatype ErrorBody = ErrorBody(status: int, message: string, error: string)

  const HiddenError := "Internal server error"

  /** The error handler's reply: always 500 with the same message; the
      error's own text only in development. */
  function ErrorResponse(nodeEnv: Option<string>, errMessage: string): (b: ErrorBody)
    ensures b.status == 500 && b.message == "Something went wrong!"
    ensures nodeEnv == Some("development") ==> b.error == errMessage
    ensures nodeEnv != Some("development") ==> b.error == HiddenError
  {
    ErrorBody(500, "Something went wrong!",
              if nodeEnv == Some("development") then errMessage else HiddenError)
  }

  /** Outside development nothing of the error reaches the client. */
  lemma {:induction false} ErrorDetailsHidden(nodeEnv: Option<string>, m1: string, m2: string)
    requires nodeEnv != Some("development")
    ensures ErrorResponse(nodeEnv, m1) == ErrorResponse(nodeEnv, m2)
  {
  }

  /** An unset `NODE_ENV` counts as neither: errors are hidden, and the
      limits are the development ones. */
  lemma {:induction false} UnsetEnvironment(m: string)
    ensures ErrorResponse(None, m).error == HiddenError
    ensures RateLimitMax(None, ApiRequestMax) == 10 * ApiRequestMax
  {
  }
}
