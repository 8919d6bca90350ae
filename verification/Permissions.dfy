/** The fixed role-to-permission table (auth/permissions.py). */
module Permissions {

  datatype Role = Admin | Manager | Employee

  datatype Permission =
    | ViewAssessments
    | RunAssessment
    | RunQuickScan
    | UseAiAssistant
    | ReviewFindings
    | OverrideScores
    | ExportReports
    | ViewAuditLog
    | ManageUsers
    | ViewSystemInfo

  function PermissionsFor(role: Role): set<Permission> {
    match role
    case Employee => {ViewAssessments, RunAssessment, RunQuickScan, UseAiAssistant}
    case Manager => {ViewAssessments, RunAssessment, RunQuickScan, UseAiAssistant,
                     ReviewFindings, OverrideScores, ExportReports, ViewAuditLog}
    case Admin => {ViewAssessments, RunAssessment, RunQuickScan, UseAiAssistant,
                   ExportReports, ViewAuditLog, ManageUsers, ViewSystemInfo}
  }

  predicate Can(role: Role, permission: Permission) {
    permission in PermissionsFor(role)
  }

  /**
   The whole matrix: everyone may look, scan and ask; managers and administrators also export
   and read the audit log; and each of the two keeps what is theirs.
   */
  lemma RoleMatrix(role: Role, permission: Permission)
    ensures Can(role, permission) <==>
            match permission
            case ViewAssessments => true
            case RunAssessment => true
            case RunQuickScan => true
            case UseAiAssistant => true
            case ExportReports => role != Employee
            case ViewAuditLog => role != Employee
            case ReviewFindings => role == Manager
            case OverrideScores => role == Manager
            case ManageUsers => role == Admin
            case ViewSystemInfo => role == Admin
  {}

  /**
   Separation of duties at the table: the two governance decisions belong to
   Manager alone and account administration to Admin alone.
   */
  lemma DutiesAreSeparate(role: Role)
    ensures Can(role, ReviewFindings) <==> role == Manager
    ensures Can(role, OverrideScores) <==> role == Manager
    ensures Can(role, ManageUsers) <==> role == Admin
  {}
}
