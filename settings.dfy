/** The `codeRiver` configuration section the services read and write. Every service reads the same
    section and `config.update(…, Global)` writes into it, so it is one shared object here; a write
    takes effect at once. */
module Settings {

  class Configuration {
    /** `codeRiver.userName` (the empty string when unset). */
    var userName: string
    /** `codeRiver.adminUsers`. */
    var adminUsers: seq<string>
    /** `codeRiver.reviewers`. */
    var reviewers: seq<string>

    constructor (userName: string, adminUsers: seq<string>, reviewers: seq<string>)
      ensures this.userName == userName && this.adminUsers == adminUsers && this.reviewers == reviewers
    {
      this.userName := userName;
      this.adminUsers := adminUsers;
      this.reviewers := reviewers;
    }
  }
}
