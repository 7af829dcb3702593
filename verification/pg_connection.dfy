/**
 * The OGR connection string both loaders build for PostgreSQL, and the
 * admin loader's `DatabaseConn`, which keeps the string and the opened data
 * source and switches role once connected.
 */
module PgConnection {
  import opened Common
  import opened Text

  /** The database options of the configuration; an option not in the file is `None`. */
  datatype DbConfig = DbConfig(
    name: string,
    host: Option<string>,
    port: Option<string>,
    user: Option<string>,
    password: Option<string>,
    rolename: Option<string>)

  /** Python truthiness of an optional string: present and not empty. */
  predicate Given(o: Option<string>) {
    o.Some? && |o.value| > 0
  }

  /** The ` key=value` segment an option contributes, or nothing. */
  function Segment(tag: string, o: Option<string>): string {
    if Given(o) then tag + o.value else ""
  }

  /** `'PG:dbname=' + name`, then host, port, user and password, each only when given. */
  function PgUri(c: DbConfig): string {
    "PG:dbname=" + c.name + Segment(" host=", c.host) + Segment(" port=", c.port)
      + Segment(" user=", c.user) + Segment(" password=", c.password)
  }

  /**
   * The string is built as the source builds it: start from the database
   * name and append each given option in turn.
   */
  method BuildPgUri(c: DbConfig) returns (uri: string)
    ensures uri == PgUri(c)
  {
    uri := "PG:dbname=" + c.name;
    ghost var base := uri;
    if Given(c.host) {
      uri := uri + " host=" + c.host.value;
    }
    assert uri == base + Segment(" host=", c.host);
    base := uri;
    if Given(c.port) {
      uri := uri + " port=" + c.port.value;
    }
    assert uri == base + Segment(" port=", c.port);
    base := uri;
    if Given(c.user) {
      uri := uri + " user=" + c.user.value;
    }
    assert uri == base + Segment(" user=", c.user);
    base := uri;
    if Given(c.password) {
      uri := uri + " password=" + c.password.value;
    }
    assert uri == base + Segment(" password=", c.password);
  }

  // ---------------------------------------------------------------------------
  // Reading the string back

  /** The rest of the first piece that begins with `prefix` (a key and its `=`), if any. */
  function Lookup(pieces: seq<string>, prefix: string): Option<string> {
    if |pieces| == 0 then None
    else if |pieces[0]| >= |prefix| && pieces[0][..|prefix|] == prefix then Some(pieces[0][|prefix|..])
    else Lookup(pieces[1..], prefix)
  }

  lemma {:induction false} LookupAppend(a: seq<string>, b: seq<string>, prefix: string)
    ensures Lookup(a + b, prefix) == if Lookup(a, prefix).Some? then Lookup(a, prefix) else Lookup(b, prefix)
  {
    if |a| > 0 {
      assert (a + b)[0] == a[0];
      assert (a + b)[1..] == a[1..] + b;
      LookupAppend(a[1..], b, prefix);
    } else {
      assert a + b == b;
    }
  }

  /** The piece a segment becomes once the string is cut at spaces. */
  function Piece(tag: string, o: Option<string>): seq<string>
    requires |tag| > 0
  {
    if Given(o) then [tag[1..] + o.value] else []
  }

  /** The space-separated pieces of the string. */
  function Pieces(c: DbConfig): seq<string> {
    ["PG:dbname=" + c.name] + Piece(" host=", c.host) + Piece(" port=", c.port)
      + Piece(" user=", c.user) + Piece(" password=", c.password)
  }

  lemma JoinPiece(parts: seq<string>, tag: string, o: Option<string>)
    requires |parts| >= 1 && |tag| > 0 && tag[0] == ' '
    ensures Join(parts + Piece(tag, o), ' ') == Join(parts, ' ') + Segment(tag, o)
  {
    if Given(o) {
      var x := tag[1..] + o.value;
      assert Piece(tag, o) == [x];
      JoinSnoc(parts, x, ' ');
      SpaceThenRest(Join(parts, ' '), tag, o.value);
    } else {
      assert Piece(tag, o) == [];
      assert parts + [] == parts;
    }
  }

  lemma SpaceThenRest(j: string, tag: string, v: string)
    requires |tag| > 0 && tag[0] == ' '
    ensures j + [' '] + (tag[1..] + v) == j + (tag + v)
  {
    assert tag == [' '] + tag[1..];
  }

  lemma PgUriIsJoin(c: DbConfig)
    ensures PgUri(c) == Join(Pieces(c), ' ')
  {
    var p0 := ["PG:dbname=" + c.name];
    var p1 := p0 + Piece(" host=", c.host);
    var p2 := p1 + Piece(" port=", c.port);
    var p3 := p2 + Piece(" user=", c.user);
    JoinPiece(p0, " host=", c.host);
    JoinPiece(p1, " port=", c.port);
    JoinPiece(p2, " user=", c.user);
    JoinPiece(p3, " password=", c.password);
  }

  /** A value free of spaces: the string has no quoting, so a space would split a value. */
  predicate Unspaced(o: Option<string>) {
    o.Some? ==> ' ' !in o.value
  }

  lemma LookupPiece(tag: string, o: Option<string>, other: string, i: nat)
    requires |tag| > 0 && i < |tag| - 1 && i < |other| && tag[1..][i] != other[i]
    ensures Lookup(Piece(tag, o), tag[1..]) == (if Given(o) then Some(o.value) else None)
    ensures Lookup(Piece(tag, o), other) == None
  {
    if Given(o) {
      var p := tag[1..] + o.value;
      assert p[..|tag[1..]|] == tag[1..];
      assert p[|tag[1..]|..] == o.value;
      if |p| >= |other| {
        assert p[..|other|][i] == tag[1..][i];
      }
    }
  }

  /** Cut at spaces, the string gives back its pieces. */
  lemma SplitPgUri(c: DbConfig)
    requires ' ' !in c.name
    requires Unspaced(c.host) && Unspaced(c.port) && Unspaced(c.user) && Unspaced(c.password)
    ensures Split(PgUri(c), ' ') == Pieces(c)
  {
    PgUriIsJoin(c);
    PiecesUnspaced(c);
    SplitJoin(Pieces(c), ' ');
  }

  lemma OptionPieces(c: DbConfig)
    ensures Pieces(c)[1..] == Piece(" host=", c.host) + Piece(" port=", c.port) + Piece(" user=", c.user) + Piece(" password=", c.password)
  {
  }

  lemma LookupHost(c: DbConfig)
    ensures Lookup(Pieces(c)[1..], "host=") == (if Given(c.host) then c.host else None)
  {
    OptionPieces(c);
    assert " host="[1..] == "host=";
    LookupPiece(" port=", c.port, "host=", 0);
    LookupPiece(" user=", c.user, "host=", 0);
    LookupPiece(" password=", c.password, "host=", 0);
    LookupPiece(" host=", c.host, "port=", 0);
    LookupFour(Piece(" host=", c.host), Piece(" port=", c.port), Piece(" user=", c.user), Piece(" password=", c.password), "host=");
  }

  lemma LookupPort(c: DbConfig)
    ensures Lookup(Pieces(c)[1..], "port=") == (if Given(c.port) then c.port else None)
  {
    OptionPieces(c);
    assert " port="[1..] == "port=";
    LookupPiece(" host=", c.host, "port=", 0);
    LookupPiece(" user=", c.user, "port=", 0);
    LookupPiece(" password=", c.password, "port=", 1);
    LookupPiece(" port=", c.port, "host=", 0);
    LookupFour(Piece(" host=", c.host), Piece(" port=", c.port), Piece(" user=", c.user), Piece(" password=", c.password), "port=");
  }

  lemma LookupUser(c: DbConfig)
    ensures Lookup(Pieces(c)[1..], "user=") == (if Given(c.user) then c.user else None)
  {
    OptionPieces(c);
    assert " user="[1..] == "user=";
    LookupPiece(" host=", c.host, "user=", 0);
    LookupPiece(" port=", c.port, "user=", 0);
    LookupPiece(" password=", c.password, "user=", 0);
    LookupPiece(" user=", c.user, "host=", 0);
    LookupFour(Piece(" host=", c.host), Piece(" port=", c.port), Piece(" user=", c.user), Piece(" password=", c.password), "user=");
  }

  lemma LookupPassword(c: DbConfig)
    ensures Lookup(Pieces(c)[1..], "password=") == (if Given(c.password) then c.password else None)
  {
    OptionPieces(c);
    assert " password="[1..] == "password=";
    LookupPiece(" host=", c.host, "password=", 0);
    LookupPiece(" port=", c.port, "password=", 1);
    LookupPiece(" user=", c.user, "password=", 0);
    LookupPiece(" password=", c.password, "host=", 0);
    LookupFour(Piece(" host=", c.host), Piece(" port=", c.port), Piece(" user=", c.user), Piece(" password=", c.password), "password=");
  }

  /**
   * The string reads back: cut at spaces, the first piece names the database
   * and each option is found under its own key exactly when it was given,
   * provided no value holds a space.
   */
  lemma PgUriRoundTrip(c: DbConfig)
    requires ' ' !in c.name
    requires Unspaced(c.host) && Unspaced(c.port) && Unspaced(c.user) && Unspaced(c.password)
    ensures Split(PgUri(c), ' ')[0] == "PG:dbname=" + c.name
    ensures Lookup(Split(PgUri(c), ' ')[1..], "host=") == (if Given(c.host) then c.host else None)
    ensures Lookup(Split(PgUri(c), ' ')[1..], "port=") == (if Given(c.port) then c.port else None)
    ensures Lookup(Split(PgUri(c), ' ')[1..], "user=") == (if Given(c.user) then c.user else None)
    ensures Lookup(Split(PgUri(c), ' ')[1..], "password=") == (if Given(c.password) then c.password else None)
  {
    SplitPgUri(c);
    LookupHost(c);
    LookupPort(c);
    LookupUser(c);
    LookupPassword(c);
  }

  lemma LookupFour(a: seq<string>, b: seq<string>, c: seq<string>, d: seq<string>, prefix: string)
    ensures Lookup(a + b + c + d, prefix) ==
      if Lookup(a, prefix).Some? then Lookup(a, prefix)
      else if Lookup(b, prefix).Some? then Lookup(b, prefix)
      else if Lookup(c, prefix).Some? then Lookup(c, prefix)
      else Lookup(d, prefix)
  {
    LookupAppend(a + b + c, d, prefix);
    LookupAppend(a + b, c, prefix);
    LookupAppend(a, b, prefix);
  }

  lemma PiecesUnspaced(c: DbConfig)
    requires ' ' !in c.name
    requires Unspaced(c.host) && Unspaced(c.port) && Unspaced(c.user) && Unspaced(c.password)
    ensures forall i :: 0 <= i < |Pieces(c)| ==> ' ' !in Pieces(c)[i]
  {
    assert ' ' !in "PG:dbname=";
    assert ' ' !in "host=" && ' ' !in "port=" && ' ' !in "user=" && ' ' !in "password=";
  }

  // ---------------------------------------------------------------------------
  // DatabaseConn

  /** What connecting sends before anything else: `SET ROLE` when a role name is given. */
  function RoleStatements(rolename: Option<string>): (r: seq<string>)
    ensures |r| <= 1
    ensures |r| == 1 <==> Given(rolename)
    ensures |r| == 1 ==> |r[0]| >= 9 && r[0][..9] == "SET ROLE " && r[0][9..] == rolename.value
  {
    if Given(rolename) then ["SET ROLE " + rolename.value] else []
  }

  /**
   * The admin loader's connection: the `PG:` string is built when the object
   * is made and the data source stays unopened (`pg_ds` is None) until
   * `Connect`. `executed` lists the SQL sent through the data source, in order.
   */
  class DatabaseConn {
    const conf: DbConfig
    var pgUri: string
    var connected: bool
    var executed: seq<string>

    constructor (conf: DbConfig)
      ensures this.conf == conf
      ensures pgUri == PgUri(conf)
      ensures !connected && executed == []
    {
      this.conf := conf;
      var uri := BuildPgUri(conf);
      pgUri := uri;
      connected := false;
      executed := [];
    }

    /**
     * `connect()`: open the data source with the stored string (`opens` says
     * whether the driver succeeds; if not, the process exits and nothing
     * changes), then switch role when one is configured.
     */
    method Connect(opens: bool) returns (ok: bool)
      modifies this
      ensures ok == opens
      ensures pgUri == old(pgUri)
      ensures ok ==> connected && executed == old(executed) + RoleStatements(conf.rolename)
      ensures !ok ==> connected == old(connected) && executed == old(executed)
    {
      if !opens {
        return false;
      }
      connected := true;
      if Given(conf.rolename) {
        Execute("SET ROLE " + conf.rolename.value);
      }
      return true;
    }

    /** `pg_ds.ExecuteSQL(sql)`: only possible once connected. */
    method Execute(sql: string)
      requires connected
      modifies this
      ensures executed == old(executed) + [sql]
      ensures connected && pgUri == old(pgUri)
    {
      executed := executed + [sql];
    }
  }
}
