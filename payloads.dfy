/**
 * The parts of a GitHub webhook payload that the formatters read, as typed records,
 * and the errors the JavaScript code throws when a part it reads is missing.
 */
module Payloads {

  /** One element of `data.commits`: `author.username`, `message` and `url`. */
  datatype Commit = Commit(username: string, message: string, url: string)

  /** A push event: `repository.name`, `repository.html_url` and `commits`. */
  datatype PushEvent = PushEvent(repoName: string, repoUrl: string, commits: seq<Commit>)

  /** One element of `data.pages`: `action` and `html_url`. */
  datatype Page = Page(action: string, url: string)

  /** A wiki (gollum) event: `sender.login`, `repository.name`, `repository.html_url` and `pages`. */
  datatype GollumEvent = GollumEvent(login: string, repoName: string, repoUrl: string, pages: seq<Page>)

  /** The decoded body of a request, as the dispatcher hands it to a formatter. */
  datatype Post = PushPost(push: PushEvent) | GollumPost(gollum: GollumEvent) | OtherPost

  /** An exception the code throws: a TypeError on a missing value, or the crypto library's error. */
  datatype Error =
    | NoCommits          // `data.commits[0]` is undefined
    | NoPages            // `data.pages[0]` is undefined
    | WrongShape         // the payload lacks the fields the formatter reads
    | NoSignature        // the signature header is missing: `undefined.split`
    | UnknownAlgorithm   // `crypto.createHmac` does not know the algorithm
    | NoDigest           // the signature has no `=`: `new Buffer(undefined)`
}
