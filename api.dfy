/** What the API routes share: the truthiness of a request field and the common error texts. */
module Api {
  import opened Wrappers

  /** A string field or query parameter is truthy: present and not empty. */
  predicate Present(s: Option<string>) {
    s.Some? && s.value != ""
  }

  const MissingUserId := "userId requis"
  const ServerFailure := "Erreur serveur"
  const UnknownUser := "Utilisateur non trouvé"
}
