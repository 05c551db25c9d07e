/** The documents that travel between a holder and the service. */
module Credentials {
  import opened Prelude

  /** Only the proof fields the service reads; a JSON field that may be missing is an Option. */
  datatype Proof = Proof(challenge: Option<string>, verificationMethod: Option<string>)

  datatype Presentation = Presentation(holder: Option<string>, proof: Option<Proof>, credentials: seq<string>)

  /** Presentation definitions are foreign documents, handed on unread. */
  type Definition = string

  datatype Query =
    | DidAuth
    | PresentationDefinition(definitions: seq<Definition>)
    | OtherQuery(name: string)

  datatype InteractType = Mediated | Unmediated | OtherInteraction(name: string)

  datatype InteractService = InteractService(kind: InteractType, serviceEndpoint: string)

  /** Shared by workflow steps (which set a domain) and legacy transactions (which do not). */
  datatype VpRequest = VpRequest(challenge: string, query: seq<Query>, services: seq<InteractService>,
                                 domain: Option<string>)

  datatype SubmissionError =
    | ProofError(title: string)
    | ChallengeMismatch                                   // 'Challenge does not match'
    | HolderRequired                                      // 'Presentation holder is required for didAuth query'
    | DefinitionFailed(number: nat, reason: string)       // 'Presentation definition (number) validation failed, reason: reason'
    | UnknownQueryType                                    // 'Unknown request query type'

  datatype VerificationResult = VerificationResult(verified: bool, errors: seq<SubmissionError>, warnings: seq<string>)
}
