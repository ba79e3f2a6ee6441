/** The part of an `ftplib.FTP` session the resolver uses: change directory
    and list names. The server's file system is a map from absolute directory
    path to the names `NLST` returns for it. */
module Ftp {
  import opened Wrappers

  type Tree = map<string, seq<string>>

  /** What `NLST` returns in directory `dir`. */
  function Listing(tree: Tree, dir: string): seq<string>
  {
    if dir in tree then tree[dir] else []
  }

  class Session {
    /** The server's directories, fixed for the length of the session. */
    const tree: Tree
    /** The current working directory; "" is the login directory. */
    var dir: string

    /** `ftplib.FTP(server)` followed by `login()`. */
    constructor (tree: Tree)
      ensures this.tree == tree && dir == ""
    {
      this.tree := tree;
      dir := "";
    }

    /** `ftp.cwd(path)`: moves to `path`, or raises `error_perm` and stays put. */
    method Cwd(path: string) returns (r: Result<()>)
      modifies this
      ensures r.Ok? <==> path in tree
      ensures r.Fail? ==> r.error == FtpError(path)
      ensures dir == if path in tree then path else old(dir)
    {
      if path in tree {
        dir := path;
        r := Ok(());
      } else {
        r := Fail(FtpError(path));
      }
    }

    /** `ftp.nlst()`: the names in the current directory. */
    method Nlst() returns (names: seq<string>)
      ensures names == Listing(tree, dir)
    {
      names := Listing(tree, dir);
    }
  }
}
